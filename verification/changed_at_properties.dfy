/** Properties of the changed-at index relating several calls: idempotence
    of additions, additions and removals as inverses, and the index built
    incrementally against the index rebuilt from every element. */
module ChangedAtProperties {
  import opened Values
  import opened Elements
  import opened ChangedAtIndex

  lemma SetCancel<T>(a: set<T>, b: set<T>)
    requires a !! b
    ensures (a + b) - b == a
  {
    assert forall x :: x in (a + b) - b <==> x in a;
  }

  lemma UnionAbsorb<T>(a: set<T>, b: set<T>)
    ensures (a + b) + b == a + b
  {
  }

  /** A date carries ids of the element exactly when the element
      contributes that date. */
  lemma ContributedIdsNonEmpty(e: Element, d: string)
    ensures d in ContributedDates(e) <==> ContributedIds(e, d) != {}
  {
    if d in ContributedDates(e) {
      var p :| p in Contributions(e) && p.date == d;
      assert FullName(p.id) in ContributedIds(e, d);
    }
  }

  /** Applying the same addition twice equals applying it once. */
  lemma AdditionIdempotent(e: Element, dm: DatesMap)
    ensures ApplyAddition(e, ApplyAddition(e, dm)) == ApplyAddition(e, dm)
  {
    var once := ApplyAddition(e, dm);
    var twice := ApplyAddition(e, once);
    forall d | d in twice ensures d in once && twice[d] == once[d] {
      if d !in once {
        ContributedIdsNonEmpty(e, d);
      }
      UnionAbsorb(Lookup(dm, d), ContributedIds(e, d));
    }
    MapsEqual(twice, once);
  }

  /** An element without a changed-at annotation, on itself or on any of
      its fields, leaves the map as it was, whether added or removed. */
  lemma UnannotatedElementContributesNothing(e: Element, dm: DatesMap)
    requires Get(AnnotationsOf(e), ChangedAtAnnotation) == Undefined
    requires e.ObjectType? ==> forall i :: 0 <= i < |e.fields| ==> Get(e.fields[i].annotations, ChangedAtAnnotation) == Undefined
    ensures ApplyAddition(e, dm) == dm
    ensures ApplyRemoval(e, dm) == dm
  {
    ContributionsSpec(e);
    assert Contributions(e) == [];
    assert forall d :: ContributedIds(e, d) == {};
    assert ApplyAddition(e, dm).Keys == dm.Keys;
  }

  /** Every change of a batch reads and writes only dates that the batch
      pre-reads: for a modification, both the before- and the after-dates. */
  lemma {:induction false} TouchedDatesArePreRead(changes: seq<Change>, i: nat)
    requires i < |changes|
    ensures TouchedDates(changes[i]) <= BatchTouchedDates(changes)
    ensures forall d :: d in TouchedDates(changes[i]) ==> d in UniqueDates(changes)
  {
    if i > 0 {
      TouchedDatesArePreRead(changes[1..], i - 1);
      assert changes[1..][i - 1] == changes[i];
    }
  }

  /** A batch of one change computes what the change alone computes on the
      pre-read part of the store. */
  lemma SingleBatch(c: Change, store: DatesMap)
    ensures BatchTouchedDates([c]) == TouchedDates(c)
    ensures BatchMap([c], store) == UpdateChange(c, PreRead(store, [c]))
  {
    assert [c][1..] == [];
    assert ApplyChanges([c], PreRead(store, [c])) == ApplyChanges([], UpdateChange(c, PreRead(store, [c])));
  }

  /** A store as a commit leaves it: no date maps to an empty set. */
  ghost predicate Clean(store: DatesMap) {
    forall d :: d in store ==> store[d] != {}
  }

  /** Committing a batch to a clean store leaves it clean. */
  lemma IndexAfterClean(changes: seq<Change>, store: DatesMap)
    requires Clean(store)
    ensures Clean(IndexAfter(changes, store))
  {
  }

  /** The map without its empty sets. */
  ghost function DropEmpty(dm: DatesMap): DatesMap {
    map d | d in dm && dm[d] != {} :: dm[d]
  }

  // ---------------------------------------------------------------------
  // Committing one addition or one removal
  // ---------------------------------------------------------------------

  lemma CommitAdditionAt(e: Element, store: DatesMap, d: string)
    ensures var u := IndexAfter([Addition(e)], store);
      var m := ApplyAddition(e, store);
      (d in u <==> d in m) && (d in u ==> u[d] == m[d])
  {
    SingleBatch(Addition(e), store);
    ContributedIdsNonEmpty(e, d);
  }

  /** Committing one addition stores exactly what applying it in memory
      gives: an addition never leaves a date with an empty set, and no
      other date changes. */
  lemma CommitAddition(e: Element, store: DatesMap)
    ensures IndexAfter([Addition(e)], store) == ApplyAddition(e, store)
  {
    forall d ensures var u := IndexAfter([Addition(e)], store);
      var m := ApplyAddition(e, store);
      (d in u <==> d in m) && (d in u ==> u[d] == m[d])
    {
      CommitAdditionAt(e, store, d);
    }
    MapsEqual(IndexAfter([Addition(e)], store), ApplyAddition(e, store));
  }

  /** Committing one removal to a clean store stores what applying it in
      memory gives, without the dates it left empty. */
  lemma CommitRemoval(e: Element, store: DatesMap)
    requires Clean(store)
    ensures IndexAfter([Removal(e)], store) == DropEmpty(ApplyRemoval(e, store))
  {
    CommitOne(Removal(e), store);
  }

  /** What a change does to one date depends only on what the map holds
      at that date. */
  lemma UpdateChangeAt(c: Change, dm1: DatesMap, dm2: DatesMap, d: string)
    requires (d in dm1 <==> d in dm2) && Lookup(dm1, d) == Lookup(dm2, d)
    ensures var u1 := UpdateChange(c, dm1); var u2 := UpdateChange(c, dm2);
      (d in u1 <==> d in u2) && (d in u1 ==> u1[d] == u2[d])
  {
  }

  lemma CommitTouchedAt(c: Change, store: DatesMap, d: string)
    requires d in TouchedDates(c)
    ensures var u := IndexAfter([c], store);
      var m := DropEmpty(UpdateChange(c, store));
      (d in u <==> d in m) && (d in u ==> u[d] == m[d])
  {
    SingleBatch(c, store);
    var pre := PreRead(store, [c]);
    assert (d in pre <==> d in store) && Lookup(pre, d) == Lookup(store, d);
    UpdateChangeAt(c, pre, store, d);
  }

  lemma CommitUntouchedAt(c: Change, store: DatesMap, d: string)
    requires Clean(store)
    requires d !in TouchedDates(c)
    ensures var u := IndexAfter([c], store);
      var m := DropEmpty(UpdateChange(c, store));
      (d in u <==> d in m) && (d in u ==> u[d] == m[d])
  {
    SingleBatch(c, store);
    UpdateChangeFrame(c, store);
  }

  /** Committing one change to a clean store stores what applying it in
      memory gives, without the dates it left empty. */
  lemma CommitOne(c: Change, store: DatesMap)
    requires Clean(store)
    ensures IndexAfter([c], store) == DropEmpty(UpdateChange(c, store))
  {
    forall d ensures var u := IndexAfter([c], store);
      var m := DropEmpty(UpdateChange(c, store));
      (d in u <==> d in m) && (d in u ==> u[d] == m[d])
    {
      if d in TouchedDates(c) {
        CommitTouchedAt(c, store, d);
      } else {
        CommitUntouchedAt(c, store, d);
      }
    }
    MapsEqual(IndexAfter([c], store), DropEmpty(UpdateChange(c, store)));
  }

  /** What a batch does to one date depends only on what the map holds at
      that date. */
  lemma {:induction false} ApplyChangesAt(changes: seq<Change>, dm1: DatesMap, dm2: DatesMap, d: string)
    requires (d in dm1 <==> d in dm2) && Lookup(dm1, d) == Lookup(dm2, d)
    ensures var a1 := ApplyChanges(changes, dm1); var a2 := ApplyChanges(changes, dm2);
      (d in a1 <==> d in a2) && Lookup(a1, d) == Lookup(a2, d)
  {
    if |changes| > 0 {
      UpdateChangeAt(changes[0], dm1, dm2, d);
      ApplyChangesAt(changes[1..], UpdateChange(changes[0], dm1), UpdateChange(changes[0], dm2), d);
    }
  }

  lemma BatchCommitAt(changes: seq<Change>, store: DatesMap, d: string)
    requires Clean(store)
    ensures var u := IndexAfter(changes, store);
      var m := DropEmpty(ApplyChanges(changes, store));
      (d in u <==> d in m) && (d in u ==> u[d] == m[d])
  {
    if d in BatchTouchedDates(changes) {
      var pre := PreRead(store, changes);
      assert (d in pre <==> d in store) && Lookup(pre, d) == Lookup(store, d);
      ApplyChangesAt(changes, pre, store, d);
    } else {
      ApplyChangesFrame(changes, store);
    }
  }

  /** Committing a whole batch to a clean store, through the pre-read of
      its touched dates, stores what applying the batch in order to the
      whole store gives, without the dates it left empty. */
  lemma BatchCommit(changes: seq<Change>, store: DatesMap)
    requires Clean(store)
    ensures IndexAfter(changes, store) == DropEmpty(ApplyChanges(changes, store))
  {
    forall d ensures var u := IndexAfter(changes, store);
      var m := DropEmpty(ApplyChanges(changes, store));
      (d in u <==> d in m) && (d in u ==> u[d] == m[d])
    {
      BatchCommitAt(changes, store, d);
    }
    MapsEqual(IndexAfter(changes, store), DropEmpty(ApplyChanges(changes, store)));
  }

  /** Committing one modification to a clean store stores what applying it
      in memory gives, without the dates it left empty. */
  lemma CommitModification(before: Element, after: Element, store: DatesMap)
    requires Clean(store)
    ensures IndexAfter([Modification(before, after)], store) == DropEmpty(ApplyModification(before, after, store))
  {
    CommitOne(Modification(before, after), store);
  }

  /** In memory, removing what was just added leaves each set as it was,
      up to the dates the addition created. */
  lemma RemoveAfterAdd(e: Element, store: DatesMap)
    requires Clean(store)
    requires forall d :: ContributedIds(e, d) !! Lookup(store, d)
    ensures DropEmpty(ApplyRemoval(e, ApplyAddition(e, store))) == store
  {
    var r := DropEmpty(ApplyRemoval(e, ApplyAddition(e, store)));
    forall d | d in ApplyAddition(e, store)
      ensures ApplyRemoval(e, ApplyAddition(e, store))[d] == Lookup(store, d)
    {
      SetCancel(Lookup(store, d), ContributedIds(e, d));
    }
    MapsEqual(r, store);
  }

  /** Removing an element right after adding it restores a clean store,
      provided its ids were not already recorded under its dates. */
  lemma AddThenRemoveRestores(e: Element, store: DatesMap)
    requires Clean(store)
    requires forall d :: ContributedIds(e, d) !! Lookup(store, d)
    ensures IndexAfter([Removal(e)], IndexAfter([Addition(e)], store)) == store
  {
    CommitAddition(e, store);
    IndexAfterClean([Addition(e)], store);
    CommitRemoval(e, ApplyAddition(e, store));
    RemoveAfterAdd(e, store);
  }

  // ---------------------------------------------------------------------
  // The index rebuilt from every element
  // ---------------------------------------------------------------------

  /** Every element as a fresh addition, as a full re-index sees them. */
  function Additions(es: seq<Element>): (cs: seq<Change>)
    ensures |cs| == |es|
    ensures forall i :: 0 <= i < |es| ==> cs[i] == Addition(es[i])
  {
    if |es| == 0 then [] else [Addition(es[0])] + Additions(es[1..])
  }

  ghost function AllDates(es: seq<Element>): set<string> {
    if |es| == 0 then {} else ContributedDates(es[0]) + AllDates(es[1..])
  }

  ghost function AllIds(es: seq<Element>, d: string): set<string> {
    if |es| == 0 then {} else ContributedIds(es[0], d) + AllIds(es[1..], d)
  }

  /** The reference index: each date any element contributes, with every id
      contributed under it. */
  ghost function FullIndex(es: seq<Element>): DatesMap {
    map d | d in AllDates(es) :: AllIds(es, d)
  }

  lemma {:induction false} AllIdsOutside(es: seq<Element>, d: string)
    requires d !in AllDates(es)
    ensures AllIds(es, d) == {}
  {
    if |es| > 0 {
      ContributedIdsNonEmpty(es[0], d);
      AllIdsOutside(es[1..], d);
    }
  }

  lemma {:induction false} AllIdsInside(es: seq<Element>, d: string)
    requires d in AllDates(es)
    ensures AllIds(es, d) != {}
  {
    if d in ContributedDates(es[0]) {
      ContributedIdsNonEmpty(es[0], d);
    } else {
      AllIdsInside(es[1..], d);
    }
  }

  lemma AllDatesAppend(es: seq<Element>, e: Element)
    ensures AllDates(es + [e]) == AllDates(es) + ContributedDates(e)
    ensures forall d :: AllIds(es + [e], d) == AllIds(es, d) + ContributedIds(e, d)
  {
    if |es| > 0 {
      assert (es + [e])[1..] == es[1..] + [e];
      AllDatesAppend(es[1..], e);
    } else {
      assert (es + [e])[1..] == [];
    }
  }

  lemma {:induction false} TouchedByAdditions(es: seq<Element>)
    ensures BatchTouchedDates(Additions(es)) == AllDates(es)
  {
    if |es| > 0 {
      assert Additions(es)[1..] == Additions(es[1..]);
      TouchedByAdditions(es[1..]);
    }
  }

  /** The map after adding every element's contributions to `dm`. */
  ghost function WithAll(dm: DatesMap, es: seq<Element>): DatesMap {
    map d | d in dm.Keys + AllDates(es) :: Lookup(dm, d) + AllIds(es, d)
  }

  lemma WithNone(dm: DatesMap, es: seq<Element>)
    requires |es| == 0
    ensures WithAll(dm, es) == dm
  {
    var w := WithAll(dm, es);
    assert w.Keys == dm.Keys;
    forall d | d in w ensures w[d] == dm[d] {
    }
  }

  lemma AdditionLookup(e: Element, dm: DatesMap, d: string)
    ensures Lookup(ApplyAddition(e, dm), d) == Lookup(dm, d) + ContributedIds(e, d)
  {
    ContributedIdsNonEmpty(e, d);
  }

  lemma WithFirstAt(dm: DatesMap, es: seq<Element>, d: string)
    requires |es| > 0
    requires d in WithAll(ApplyAddition(es[0], dm), es[1..])
    ensures d in WithAll(dm, es)
    ensures WithAll(ApplyAddition(es[0], dm), es[1..])[d] == WithAll(dm, es)[d]
  {
    AdditionLookup(es[0], dm, d);
  }

  /** Adding the first element and then the rest adds them all. */
  lemma WithFirst(dm: DatesMap, es: seq<Element>)
    requires |es| > 0
    ensures WithAll(ApplyAddition(es[0], dm), es[1..]) == WithAll(dm, es)
  {
    var lhs := WithAll(ApplyAddition(es[0], dm), es[1..]);
    var rhs := WithAll(dm, es);
    forall d | d in lhs ensures d in rhs && lhs[d] == rhs[d] {
      WithFirstAt(dm, es, d);
    }
    MapsEqual(lhs, rhs);
  }

  /** Applying every element as an addition adds its ids to the map. */
  lemma {:induction false} ApplyAdditions(es: seq<Element>, dm: DatesMap)
    ensures ApplyChanges(Additions(es), dm) == WithAll(dm, es)
  {
    if |es| == 0 {
      WithNone(dm, es);
    } else {
      var dm1 := ApplyAddition(es[0], dm);
      assert Additions(es)[1..] == Additions(es[1..]);
      ApplyAdditions(es[1..], dm1);
      WithFirst(dm, es);
    }
  }

  /** Committing a batch to an empty store keeps the non-empty sets the
      batch computes from nothing. */
  lemma IndexOfEmptyStore(changes: seq<Change>)
    ensures IndexAfter(changes, map[]) == DropEmpty(ApplyChanges(changes, map[]))
  {
    var empty: DatesMap := map[];
    assert PreRead(empty, changes) == empty;
    BatchMapKeys(changes, empty);
    MapsEqual(IndexAfter(changes, empty), DropEmpty(ApplyChanges(changes, empty)));
  }

  /** The reference index is the full addition map without empty sets,
      which it never has. */
  lemma FullIndexIsWithAll(es: seq<Element>)
    ensures FullIndex(es) == DropEmpty(WithAll(map[], es))
  {
    var w := WithAll(map[], es);
    forall d | d in AllDates(es) ensures w[d] == AllIds(es, d) && w[d] != {} {
      AllIdsInside(es, d);
    }
    MapsEqual(FullIndex(es), DropEmpty(w));
  }

  /** A re-index over an empty store, which a stale version or an invalid
      cache starts from, yields exactly the reference index. */
  lemma RebuildIsFullIndex(es: seq<Element>)
    ensures IndexAfter(Additions(es), map[]) == FullIndex(es)
  {
    IndexOfEmptyStore(Additions(es));
    ApplyAdditions(es, map[]);
    FullIndexIsWithAll(es);
  }

  lemma FullIndexClean(es: seq<Element>)
    ensures Clean(FullIndex(es))
  {
    forall d | d in FullIndex(es) ensures FullIndex(es)[d] != {} {
      AllIdsInside(es, d);
    }
  }

  /** Adding one more element to the reference index in memory gives the
      reference index of the enlarged list. */
  lemma AddToFullIndex(es: seq<Element>, e: Element)
    ensures ApplyAddition(e, FullIndex(es)) == FullIndex(es + [e])
  {
    var r := ApplyAddition(e, FullIndex(es));
    var after := FullIndex(es + [e]);
    AllDatesAppend(es, e);
    forall d | d in r ensures d in after && r[d] == after[d] {
      if d !in AllDates(es) {
        AllIdsOutside(es, d);
      }
    }
    MapsEqual(r, after);
  }

  /** An addition applied incrementally to the reference index gives the
      reference index of the enlarged element list. */
  lemma AdditionMatchesRebuild(es: seq<Element>, e: Element)
    ensures IndexAfter([Addition(e)], FullIndex(es)) == FullIndex(es + [e])
  {
    CommitAddition(e, FullIndex(es));
    AddToFullIndex(es, e);
  }

  /** A removal applied incrementally to the reference index gives the
      reference index without the element, when no other element
      contributes the same id under the same date. */
  lemma RemovalMatchesRebuild(es: seq<Element>, e: Element)
    requires forall d :: ContributedIds(e, d) !! AllIds(es, d)
    ensures IndexAfter([Removal(e)], FullIndex(es + [e])) == FullIndex(es)
  {
    AdditionMatchesRebuild(es, e);
    FullIndexClean(es);
    forall d ensures ContributedIds(e, d) !! Lookup(FullIndex(es), d) {
    }
    AddThenRemoveRestores(e, FullIndex(es));
  }

  lemma {:induction false} AllDatesConcat(es1: seq<Element>, es2: seq<Element>)
    ensures AllDates(es1 + es2) == AllDates(es1) + AllDates(es2)
    ensures forall d :: AllIds(es1 + es2, d) == AllIds(es1, d) + AllIds(es2, d)
  {
    if |es1| == 0 {
      assert es1 + es2 == es2;
    } else {
      assert (es1 + es2)[1..] == es1[1..] + es2;
      AllDatesConcat(es1[1..], es2);
    }
  }

  lemma AdditionsMatchRebuildAt(es1: seq<Element>, es2: seq<Element>, d: string)
    ensures var l := DropEmpty(WithAll(FullIndex(es1), es2)); var r := FullIndex(es1 + es2);
      (d in l <==> d in r) && (d in l ==> l[d] == r[d])
  {
    AllDatesConcat(es1, es2);
    if d !in AllDates(es1) {
      AllIdsOutside(es1, d);
    }
    if d in AllDates(es1 + es2) {
      AllIdsInside(es1 + es2, d);
    } else {
      AllIdsOutside(es2, d);
    }
  }

  /** A batch of additions committed incrementally to the reference index
      gives the reference index of all the elements: the incremental index
      equals a rebuild for batches of additions. */
  lemma AdditionsMatchRebuild(es1: seq<Element>, es2: seq<Element>)
    ensures IndexAfter(Additions(es2), FullIndex(es1)) == FullIndex(es1 + es2)
  {
    FullIndexClean(es1);
    BatchCommit(Additions(es2), FullIndex(es1));
    ApplyAdditions(es2, FullIndex(es1));
    var l := DropEmpty(WithAll(FullIndex(es1), es2));
    forall d ensures (d in l <==> d in FullIndex(es1 + es2)) && (d in l ==> l[d] == FullIndex(es1 + es2)[d]) {
      AdditionsMatchRebuildAt(es1, es2, d);
    }
    MapsEqual(l, FullIndex(es1 + es2));
  }

  /** A modification whose top-level changed-at date is the same before and
      after leaves a clean index as it was, even when the dates of its
      fields changed: the index then no longer matches a rebuild. */
  lemma UnchangedTopDateKeepsIndex(before: Element, after: Element, store: DatesMap)
    requires Clean(store)
    requires SameTopLevelDate(before, after)
    ensures IndexAfter([Modification(before, after)], store) == store
  {
    var c := Modification(before, after);
    SingleBatch(c, store);
    MapsEqual(IndexAfter([c], store), store);
  }

  lemma DropEmptyAdditionAt(e: Element, dm: DatesMap, d: string)
    ensures var l := DropEmpty(ApplyAddition(e, dm)); var r := ApplyAddition(e, DropEmpty(dm));
      (d in l <==> d in r) && (d in l ==> l[d] == r[d])
  {
    ContributedIdsNonEmpty(e, d);
    assert Lookup(DropEmpty(dm), d) == Lookup(dm, d);
    AdditionLookup(e, dm, d);
    AdditionLookup(e, DropEmpty(dm), d);
  }

  /** Dropping empty sets before or after an addition gives the same map. */
  lemma DropEmptyAddition(e: Element, dm: DatesMap)
    ensures DropEmpty(ApplyAddition(e, dm)) == ApplyAddition(e, DropEmpty(dm))
  {
    var l := DropEmpty(ApplyAddition(e, dm));
    var r := ApplyAddition(e, DropEmpty(dm));
    forall d ensures (d in l <==> d in r) && (d in l ==> l[d] == r[d]) {
      DropEmptyAdditionAt(e, dm, d);
    }
    MapsEqual(l, r);
  }

  /** A modification that changes the element's own changed-at date,
      applied incrementally to the reference index, gives the reference
      index with the element replaced, when no other element contributes
      the before-element's ids under the same dates. */
  lemma ModificationMatchesRebuild(es: seq<Element>, before: Element, after: Element)
    requires !SameTopLevelDate(before, after)
    requires forall d :: ContributedIds(before, d) !! AllIds(es, d)
    ensures IndexAfter([Modification(before, after)], FullIndex(es + [before])) == FullIndex(es + [after])
  {
    var full := FullIndex(es + [before]);
    FullIndexClean(es + [before]);
    CommitModification(before, after, full);
    DropEmptyAddition(after, ApplyRemoval(before, full));
    AddToFullIndex(es, before);
    FullIndexClean(es);
    forall d ensures ContributedIds(before, d) !! Lookup(FullIndex(es), d) {
    }
    RemoveAfterAdd(before, FullIndex(es));
    AddToFullIndex(es, after);
  }

  /** An object type dated `t` with one field `f` dated `fieldDate`. */
  function TypeWithFieldDate(fieldDate: string): Element {
    ObjectType(ElemId("salto", "T", TypeId, []), map[ChangedAtAnnotation := Str("t")],
      [Field("f", ElemId("salto", "T", FieldId, ["f"]), map[ChangedAtAnnotation := Str(fieldDate)])])
  }

  /** That type is filed under its own date and its field's date only. */
  lemma TypeWithFieldDateDates(fieldDate: string)
    ensures AllDates([TypeWithFieldDate(fieldDate)]) == {fieldDate, "t"}
  {
    var e := TypeWithFieldDate(fieldDate);
    assert FieldPairs(e.fields[1..]) == [];
    assert Contributions(e) == [DatePair(fieldDate, e.fields[0].id), DatePair("t", e.id)];
    assert ContributedDates(e) == {fieldDate, "t"};
    assert [e][1..] == [];
  }

  /** Moving the field's date from `d1` to `d2` under the same top-level date
      leaves the index without `d2`, although a rebuild files the field
      under `d2`: the incremental index goes stale. */
  lemma FieldDateMoveLeavesIndexStale()
    ensures SameTopLevelDate(TypeWithFieldDate("d1"), TypeWithFieldDate("d2"))
    ensures IndexAfter([Modification(TypeWithFieldDate("d1"), TypeWithFieldDate("d2"))], FullIndex([TypeWithFieldDate("d1")]))
      != FullIndex([TypeWithFieldDate("d2")])
  {
    var before := TypeWithFieldDate("d1");
    var after := TypeWithFieldDate("d2");
    assert Get(AnnotationsOf(before), ChangedAtAnnotation) == Str("t") == Get(AnnotationsOf(after), ChangedAtAnnotation);
    FullIndexClean([before]);
    UnchangedTopDateKeepsIndex(before, after, FullIndex([before]));
    TypeWithFieldDateDates("d1");
    TypeWithFieldDateDates("d2");
    assert "d2" !in FullIndex([before]);
    assert "d2" in FullIndex([after]);
  }
}
