/** The workspace's changed-at index: a persisted map from a change date to
    the full names of the elements last changed on that date, kept up to
    date incrementally from each batch of element changes. */
module ChangedAtIndex {
  import opened Values
  import opened Elements
  import Seqs

  /** Bumping this constant forces every workspace to rebuild the index. */
  const ChangedAtIndexVersion: int := 3
  /** The index's key in the map of index versions. */
  const ChangedAtIndexKey: string := "changed_at_index"
  /** `CORE_ANNOTATIONS.CHANGED_AT`. */
  const ChangedAtAnnotation: string := "_changed_at"

  /** The index and the in-memory copy of its touched part: date to the
      full names of the elements changed on that date. */
  type DatesMap = map<string, set<string>>

  function Lookup(dm: DatesMap, date: string): set<string> {
    if date in dm then dm[date] else {}
  }

  // ---------------------------------------------------------------------
  // What one element contributes
  // ---------------------------------------------------------------------

  /** The date key an element's annotations contribute: nothing when the
      changed-at annotation is undefined, otherwise the annotation used as
      a property key. */
  function DateKey(annotations: Annotations): (d: Option<string>)
    ensures d.None? <==> Get(annotations, ChangedAtAnnotation) == Undefined
    ensures Get(annotations, ChangedAtAnnotation).Str? ==> d == Some(Get(annotations, ChangedAtAnnotation).s)
  {
    var date := Get(annotations, ChangedAtAnnotation);
    if date == Undefined then None else Some(ToJsString(date))
  }

  datatype DatePair = DatePair(date: string, id: ElemId)

  function OwnPair(id: ElemId, annotations: Annotations): seq<DatePair> {
    match DateKey(annotations)
    case None => []
    case Some(d) => [DatePair(d, id)]
  }

  /** One pair per field whose changed-at annotation is defined, in field
      order. */
  function FieldPairs(fields: seq<Field>): seq<DatePair> {
    if |fields| == 0 then []
    else OwnPair(fields[0].id, fields[0].annotations) + FieldPairs(fields[1..])
  }

  lemma {:induction false} FieldPairsSpec(fields: seq<Field>)
    ensures |FieldPairs(fields)| <= |fields|
    ensures forall p :: p in FieldPairs(fields) ==>
      exists i :: 0 <= i < |fields| && fields[i].id == p.id && DateKey(fields[i].annotations) == Some(p.date)
    ensures forall i :: 0 <= i < |fields| && DateKey(fields[i].annotations).Some? ==>
      DatePair(DateKey(fields[i].annotations).value, fields[i].id) in FieldPairs(fields)
    ensures (forall i :: 0 <= i < |fields| ==> DateKey(fields[i].annotations).None?) ==> FieldPairs(fields) == []
  {
    if |fields| > 0 {
      var rest := FieldPairs(fields[1..]);
      FieldPairsSpec(fields[1..]);
      forall p | p in rest
        ensures exists i :: 0 <= i < |fields| && fields[i].id == p.id && DateKey(fields[i].annotations) == Some(p.date)
      {
        var j :| 0 <= j < |fields[1..]| && fields[1..][j].id == p.id && DateKey(fields[1..][j].annotations) == Some(p.date);
        assert fields[j + 1] == fields[1..][j];
      }
      forall i | 1 <= i < |fields| && DateKey(fields[i].annotations).Some?
        ensures DatePair(DateKey(fields[i].annotations).value, fields[i].id) in rest
      {
        assert fields[1..][i - 1] == fields[i];
      }
      assert (forall i :: 0 <= i < |fields| ==> DateKey(fields[i].annotations).None?) ==>
        forall i :: 0 <= i < |fields[1..]| ==> DateKey(fields[1..][i].annotations).None?;
    }
  }

  /** The (date, id) pairs one element contributes (`getChangedAtDates`
      before grouping): for an object type one per field with a defined
      changed-at annotation, then the element's own pair. */
  function Contributions(e: Element): seq<DatePair> {
    var fieldPairs := if e.ObjectType? then FieldPairs(e.fields) else [];
    fieldPairs + OwnPair(IdOf(e), AnnotationsOf(e))
  }

  /** An element contributes its own id under its changed-at date when that
      annotation is defined, and an object type also each field's id under
      the field's defined date; nothing else. Without any defined
      annotation it contributes nothing. */
  lemma ContributionsSpec(e: Element)
    ensures forall p :: p in Contributions(e) ==>
      (p.id == IdOf(e) && DateKey(AnnotationsOf(e)) == Some(p.date)) ||
      (e.ObjectType? && exists i :: 0 <= i < |e.fields| && e.fields[i].id == p.id && DateKey(e.fields[i].annotations) == Some(p.date))
    ensures DateKey(AnnotationsOf(e)).Some? ==>
      var ps := Contributions(e);
      |ps| > 0 && ps[|ps| - 1] == DatePair(DateKey(AnnotationsOf(e)).value, IdOf(e))
    ensures e.ObjectType? ==> forall i :: 0 <= i < |e.fields| && DateKey(e.fields[i].annotations).Some? ==>
      DatePair(DateKey(e.fields[i].annotations).value, e.fields[i].id) in Contributions(e)
    ensures DateKey(AnnotationsOf(e)).None? && (e.ObjectType? ==> forall i :: 0 <= i < |e.fields| ==> DateKey(e.fields[i].annotations).None?)
      ==> Contributions(e) == []
  {
    if e.ObjectType? {
      FieldPairsSpec(e.fields);
    }
  }

  /** The dates an element contributes to. */
  function ContributedDates(e: Element): set<string> {
    set p | p in Contributions(e) :: p.date
  }

  /** The full names an element contributes under `date`. */
  function ContributedIds(e: Element, date: string): set<string> {
    set p | p in Contributions(e) && p.date == date :: FullName(p.id)
  }

  // ---------------------------------------------------------------------
  // Grouping the pairs by date (`getChangedAtDates`)
  // ---------------------------------------------------------------------

  /** One entry of the date record: a date and the ids pushed under it. */
  datatype DateEntry = DateEntry(date: string, ids: seq<ElemId>)

  function EntryDates(entries: seq<DateEntry>): set<string> {
    set i | 0 <= i < |entries| :: entries[i].date
  }

  lemma EntryDatesCons(entries: seq<DateEntry>)
    requires |entries| > 0
    ensures EntryDates(entries) == {entries[0].date} + EntryDates(entries[1..])
  {
    forall d | d in EntryDates(entries) ensures d in {entries[0].date} + EntryDates(entries[1..]) {
      var i :| 0 <= i < |entries| && entries[i].date == d;
      if i > 0 { assert entries[1..][i - 1] == entries[i]; }
    }
    forall d | d in EntryDates(entries[1..]) ensures d in EntryDates(entries) {
      var i :| 0 <= i < |entries[1..]| && entries[1..][i].date == d;
      assert entries[i + 1] == entries[1..][i];
    }
  }

  predicate DistinctDates(entries: seq<DateEntry>) {
    forall i, j :: 0 <= i < j < |entries| ==> entries[i].date != entries[j].date
  }

  /** The ids recorded under `date`, or none. */
  ghost function EntryIds(entries: seq<DateEntry>, date: string): seq<ElemId> {
    if |entries| == 0 then []
    else if entries[0].date == date then entries[0].ids
    else EntryIds(entries[1..], date)
  }

  /** The ids of the pairs with date `date`, in order. */
  ghost function PairIds(pairs: seq<DatePair>, date: string): seq<ElemId> {
    if |pairs| == 0 then []
    else (if pairs[0].date == date then [pairs[0].id] else []) + PairIds(pairs[1..], date)
  }

  ghost function PairDates(pairs: seq<DatePair>): set<string> {
    set p | p in pairs :: p.date
  }

  /** Records one pair: creates the date's entry when it is missing, then
      pushes the id onto it. */
  function Insert(entries: seq<DateEntry>, p: DatePair): seq<DateEntry> {
    if |entries| == 0 then [DateEntry(p.date, [p.id])]
    else if entries[0].date == p.date then [entries[0].(ids := entries[0].ids + [p.id])] + entries[1..]
    else [entries[0]] + Insert(entries[1..], p)
  }

  /** Recording a pair adds its date to the entries' dates. */
  lemma {:induction false} InsertDates(entries: seq<DateEntry>, p: DatePair)
    ensures EntryDates(Insert(entries, p)) == EntryDates(entries) + {p.date}
  {
    var r := Insert(entries, p);
    if |entries| == 0 {
      assert r[0].date == p.date;
    } else if entries[0].date == p.date {
      assert r[1..] == entries[1..];
      EntryDatesCons(r);
      EntryDatesCons(entries);
    } else {
      InsertDates(entries[1..], p);
      assert r[1..] == Insert(entries[1..], p);
      EntryDatesCons(r);
      EntryDatesCons(entries);
    }
  }

  /** Recording a pair keeps one entry per date. */
  lemma {:induction false} InsertDistinct(entries: seq<DateEntry>, p: DatePair)
    requires DistinctDates(entries)
    ensures DistinctDates(Insert(entries, p))
  {
    var r := Insert(entries, p);
    if |entries| > 0 && entries[0].date == p.date {
      assert forall i :: 0 <= i < |r| ==> r[i].date == entries[i].date by {
        assert r[1..] == entries[1..];
      }
    } else if |entries| > 0 {
      var rest := Insert(entries[1..], p);
      InsertDistinct(entries[1..], p);
      InsertDates(entries[1..], p);
      assert r[1..] == rest;
      forall j | 0 <= j < |rest| ensures rest[j].date != entries[0].date {
        assert rest[j].date in EntryDates(rest);
        if rest[j].date != p.date {
          var k :| 0 <= k < |entries[1..]| && entries[1..][k].date == rest[j].date;
          assert entries[k + 1].date == rest[j].date;
        }
      }
    }
  }

  /** Recording a pair appends its id to its date's ids alone. */
  lemma {:induction false} InsertIds(entries: seq<DateEntry>, p: DatePair, d: string)
    ensures EntryIds(Insert(entries, p), d) == EntryIds(entries, d) + (if d == p.date then [p.id] else [])
  {
    if |entries| > 0 && entries[0].date != p.date {
      InsertIds(entries[1..], p, d);
      assert Insert(entries, p)[1..] == Insert(entries[1..], p);
    }
  }

  /** Records the pairs one after the other. */
  function GroupInto(entries: seq<DateEntry>, pairs: seq<DatePair>): seq<DateEntry>
    decreases pairs
  {
    if |pairs| == 0 then entries else GroupInto(Insert(entries, pairs[0]), pairs[1..])
  }

  lemma PairDatesCons(pairs: seq<DatePair>)
    requires |pairs| > 0
    ensures PairDates(pairs) == {pairs[0].date} + PairDates(pairs[1..])
  {
    assert pairs == [pairs[0]] + pairs[1..];
  }

  /** Grouping keeps one entry per date and adds the pairs' dates. */
  lemma {:induction false} GroupIntoDates(entries: seq<DateEntry>, pairs: seq<DatePair>)
    requires DistinctDates(entries)
    ensures DistinctDates(GroupInto(entries, pairs))
    ensures EntryDates(GroupInto(entries, pairs)) == EntryDates(entries) + PairDates(pairs)
    decreases pairs
  {
    if |pairs| > 0 {
      InsertDates(entries, pairs[0]);
      InsertDistinct(entries, pairs[0]);
      GroupIntoDates(Insert(entries, pairs[0]), pairs[1..]);
      PairDatesCons(pairs);
    }
  }

  /** Grouping appends each date's pair ids, in order, to its entry. */
  lemma {:induction false} GroupIntoIds(entries: seq<DateEntry>, pairs: seq<DatePair>, d: string)
    ensures EntryIds(GroupInto(entries, pairs), d) == EntryIds(entries, d) + PairIds(pairs, d)
    decreases pairs
  {
    if |pairs| > 0 {
      InsertIds(entries, pairs[0], d);
      GroupIntoIds(Insert(entries, pairs[0]), pairs[1..], d);
    }
  }

  /** `getChangedAtDates`: the element's pairs grouped by date, one entry
      per distinct date, each holding that date's ids in contribution
      order. */
  function ChangedAtDates(e: Element): (r: seq<DateEntry>)
    ensures DistinctDates(r)
    ensures EntryDates(r) == ContributedDates(e)
    ensures forall d :: EntryIds(r, d) == PairIds(Contributions(e), d)
  {
    GroupIntoDates([], Contributions(e));
    forall d ensures EntryIds(GroupInto([], Contributions(e)), d) == PairIds(Contributions(e), d) {
      GroupIntoIds([], Contributions(e), d);
    }
    GroupInto([], Contributions(e))
  }

  // ---------------------------------------------------------------------
  // Applying one change to the in-memory map
  // ---------------------------------------------------------------------

  function Names(ids: seq<ElemId>): set<string> {
    set id | id in ids :: FullName(id)
  }

  /** The full names recorded under `date` in any entry. */
  ghost function EntryNames(entries: seq<DateEntry>, date: string): set<string> {
    if |entries| == 0 then {}
    else (if entries[0].date == date then Names(entries[0].ids) else {}) + EntryNames(entries[1..], date)
  }

  lemma {:induction false} EntryNamesDistinct(entries: seq<DateEntry>, date: string)
    requires DistinctDates(entries)
    ensures EntryNames(entries, date) == Names(EntryIds(entries, date))
  {
    if |entries| > 0 {
      EntryNamesDistinct(entries[1..], date);
      if entries[0].date == date {
        EntryNamesAbsent(entries[1..], date);
      }
    }
  }

  lemma {:induction false} EntryNamesAbsent(entries: seq<DateEntry>, date: string)
    requires forall e :: e in entries ==> e.date != date
    ensures EntryNames(entries, date) == {}
  {
    if |entries| > 0 {
      assert entries[0] in entries;
      EntryNamesAbsent(entries[1..], date);
    }
  }

  lemma {:induction false} PairIdsNames(pairs: seq<DatePair>, date: string)
    ensures Names(PairIds(pairs, date)) == set p | p in pairs && p.date == date :: FullName(p.id)
  {
    if |pairs| > 0 {
      PairIdsNames(pairs[1..], date);
      assert pairs == [pairs[0]] + pairs[1..];
      var head := if pairs[0].date == date then [pairs[0].id] else [];
      assert Names(head + PairIds(pairs[1..], date)) == Names(head) + Names(PairIds(pairs[1..], date));
    }
  }

  /** The names the grouped record holds under a date are exactly the
      element's contributed ids for it. */
  lemma ChangedAtDatesNames(e: Element, date: string)
    ensures EntryNames(ChangedAtDates(e), date) == ContributedIds(e, date)
  {
    EntryNamesDistinct(ChangedAtDates(e), date);
    PairIdsNames(Contributions(e), date);
  }

  /** Adds each entry's names to its date's set, creating the set when the
      date is missing. */
  function AddEntries(entries: seq<DateEntry>, dm: DatesMap): (r: DatesMap)
    ensures r.Keys == dm.Keys + EntryDates(entries)
    ensures forall d :: d in r ==> r[d] == Lookup(dm, d) + EntryNames(entries, d)
    decreases entries
  {
    if |entries| == 0 then dm
    else
      var e := entries[0];
      var r := AddEntries(entries[1..], dm[e.date := Lookup(dm, e.date) + Names(e.ids)]);
      EntryDatesCons(entries);
      r
  }

  /** Deletes each entry's names from its date's set, for dates already
      present; a missing date stays missing. */
  function RemoveEntries(entries: seq<DateEntry>, dm: DatesMap): (r: DatesMap)
    ensures r.Keys == dm.Keys
    ensures forall d :: d in r ==> r[d] == dm[d] - EntryNames(entries, d)
    decreases entries
  {
    if |entries| == 0 then dm
    else
      var e := entries[0];
      var next := if e.date in dm then dm[e.date := dm[e.date] - Names(e.ids)] else dm;
      RemoveEntries(entries[1..], next)
  }

  /** `updateAdditionChange`: every contributed id joins its date's set; no
      other date changes. */
  function ApplyAddition(e: Element, dm: DatesMap): (r: DatesMap)
    ensures r.Keys == dm.Keys + ContributedDates(e)
    ensures forall d :: d in r ==> r[d] == Lookup(dm, d) + ContributedIds(e, d)
  {
    var r := AddEntries(ChangedAtDates(e), dm);
    assert forall d :: d in r ==> r[d] == Lookup(dm, d) + ContributedIds(e, d) by {
      forall d | d in r ensures r[d] == Lookup(dm, d) + ContributedIds(e, d) {
        ChangedAtDatesNames(e, d);
      }
    }
    r
  }

  /** `updateRemovalChange`: every contributed id leaves its date's set when
      the set exists; the keys stay the same. */
  function ApplyRemoval(e: Element, dm: DatesMap): (r: DatesMap)
    ensures r.Keys == dm.Keys
    ensures forall d :: d in r ==> r[d] == dm[d] - ContributedIds(e, d)
  {
    var r := RemoveEntries(ChangedAtDates(e), dm);
    assert forall d :: d in r ==> r[d] == dm[d] - ContributedIds(e, d) by {
      forall d | d in r ensures r[d] == dm[d] - ContributedIds(e, d) {
        ChangedAtDatesNames(e, d);
      }
    }
    r
  }

  /** Whether a modification leaves the element's own changed-at annotation
      as it was (`!==` on the two values). */
  predicate SameTopLevelDate(before: Element, after: Element) {
    StrictEquals(Get(AnnotationsOf(after), ChangedAtAnnotation), Get(AnnotationsOf(before), ChangedAtAnnotation))
  }

  /** `updateModificationChange`: nothing happens when the element's own
      changed-at is unchanged, whatever its fields' dates did; otherwise the
      before-element's ids are removed and the after-element's ids added. */
  function ApplyModification(before: Element, after: Element, dm: DatesMap): (r: DatesMap)
    ensures SameTopLevelDate(before, after) ==> r == dm
    ensures !SameTopLevelDate(before, after) ==>
      r.Keys == dm.Keys + ContributedDates(after) &&
      forall d :: d in r ==> r[d] == (Lookup(dm, d) - ContributedIds(before, d)) + ContributedIds(after, d)
  {
    if SameTopLevelDate(before, after) then dm
    else ApplyAddition(after, ApplyRemoval(before, dm))
  }

  /** `updateChange`. */
  function UpdateChange(c: Change, dm: DatesMap): DatesMap {
    match c
    case Addition(after) => ApplyAddition(after, dm)
    case Removal(before) => ApplyRemoval(before, dm)
    case Modification(before, after) => ApplyModification(before, after, dm)
  }

  // ---------------------------------------------------------------------
  // The dates a batch touches (`getUniqueDates`)
  // ---------------------------------------------------------------------

  function EntryDateList(entries: seq<DateEntry>): (ds: seq<string>)
    ensures forall d :: d in ds <==> d in EntryDates(entries)
  {
    if |entries| == 0 then []
    else
      assert entries == [entries[0]] + entries[1..];
      [entries[0].date] + EntryDateList(entries[1..])
  }

  /** The date keys one change contributes to the pre-read: both the
      before- and after-element's for a modification. */
  function ChangeDateKeys(c: Change): (ds: seq<string>)
    ensures forall d :: d in ds <==> d in TouchedDates(c)
  {
    match c
    case Modification(before, after) =>
      EntryDateList(ChangedAtDates(before)) + EntryDateList(ChangedAtDates(after))
    case _ => EntryDateList(ChangedAtDates(ChangeData(c)))
  }

  /** The dates a change can read or write. */
  function TouchedDates(c: Change): set<string> {
    match c
    case Modification(before, after) => ContributedDates(before) + ContributedDates(after)
    case _ => ContributedDates(ChangeData(c))
  }

  function BatchTouchedDates(changes: seq<Change>): set<string> {
    if |changes| == 0 then {} else TouchedDates(changes[0]) + BatchTouchedDates(changes[1..])
  }

  function AllDateKeys(changes: seq<Change>): (ds: seq<string>)
    ensures forall d :: d in ds <==> d in BatchTouchedDates(changes)
  {
    if |changes| == 0 then [] else ChangeDateKeys(changes[0]) + AllDateKeys(changes[1..])
  }

  /** `getUniqueDates` read back as a list: every date the batch touches,
      once each. */
  function UniqueDates(changes: seq<Change>): (ds: seq<string>)
    ensures Seqs.Distinct(ds)
    ensures forall d :: d in ds <==> d in BatchTouchedDates(changes)
  {
    Seqs.Dedup([], AllDateKeys(changes))
  }

  /** `updateChange` reads and writes only the dates the change touches:
      every other date keeps its presence and its set. */
  lemma UpdateChangeFrame(c: Change, dm: DatesMap)
    ensures dm.Keys <= UpdateChange(c, dm).Keys <= dm.Keys + TouchedDates(c)
    ensures forall d :: d !in TouchedDates(c) ==>
      (d in UpdateChange(c, dm) <==> d in dm) && (d in dm ==> UpdateChange(c, dm)[d] == dm[d])
  {
    match c
    case Addition(after) =>
    case Removal(before) =>
    case Modification(before, after) =>
      forall d | d !in TouchedDates(c) && d in dm
        ensures ContributedIds(before, d) == {} && ContributedIds(after, d) == {}
      {
      }
  }

  /** Applies the changes in order (`changes.forEach(updateChange)`). */
  function ApplyChanges(changes: seq<Change>, dm: DatesMap): DatesMap
    decreases changes
  {
    if |changes| == 0 then dm else ApplyChanges(changes[1..], UpdateChange(changes[0], dm))
  }

  /** Applying a batch changes no date outside the batch's pre-read dates. */
  lemma {:induction false} ApplyChangesFrame(changes: seq<Change>, dm: DatesMap)
    ensures dm.Keys <= ApplyChanges(changes, dm).Keys <= dm.Keys + BatchTouchedDates(changes)
    ensures forall d :: d !in BatchTouchedDates(changes) ==>
      (d in ApplyChanges(changes, dm) <==> d in dm) && (d in dm ==> ApplyChanges(changes, dm)[d] == dm[d])
  {
    if |changes| > 0 {
      UpdateChangeFrame(changes[0], dm);
      ApplyChangesFrame(changes[1..], UpdateChange(changes[0], dm));
    }
  }

  // ---------------------------------------------------------------------
  // Pre-reading the store (`mergeDateMap`, `getCompleteDateMap`)
  // ---------------------------------------------------------------------

  /** `RemoteMap.getMany`: the stored value per key, aligned by position. */
  function GetMany(store: DatesMap, keys: seq<string>): (vs: seq<Option<set<string>>>)
    ensures |vs| == |keys|
    ensures forall i :: 0 <= i < |keys| ==> (vs[i].Some? <==> keys[i] in store)
    ensures forall i :: 0 <= i < |keys| && keys[i] in store ==> vs[i] == Some(store[keys[i]])
  {
    if |keys| == 0 then []
    else [if keys[0] in store then Some(store[keys[0]]) else None] + GetMany(store, keys[1..])
  }

  /** `_.zipObject(dates, values)`: a later occurrence of a date wins, and
      a date past the end of `values` is paired with `undefined`. */
  function ZipDates(dates: seq<string>, vals: seq<Option<set<string>>>): (z: map<string, Option<set<string>>>)
    ensures z.Keys == set d | d in dates
    decreases |dates|
  {
    if |dates| == 0 then map[]
    else
      var last := |dates| - 1;
      var v := if last < |vals| then vals[last] else None;
      var z := ZipDates(dates[..last], vals)[dates[last] := v];
      assert dates == dates[..last] + [dates[last]];
      z
  }

  /** `mergeDateMap`: the pre-read dates whose stored value is defined, each
      with its stored ids. */
  function MergeDateMap(dates: seq<string>, vals: seq<Option<set<string>>>): (r: DatesMap)
    ensures forall d :: d in r ==> d in dates
  {
    var z := ZipDates(dates, vals);
    map d | d in z && z[d].Some? :: z[d].value
  }

  /** Zipping the pre-read dates with the store's answers for them pairs
      each date with its own stored value. */
  lemma {:induction false} ZipGetMany(store: DatesMap, dates: seq<string>, prefix: nat)
    requires prefix <= |dates|
    ensures forall d :: d in ZipDates(dates[..prefix], GetMany(store, dates)) ==>
      ZipDates(dates[..prefix], GetMany(store, dates))[d] == (if d in store then Some(store[d]) else None)
  {
    if prefix > 0 {
      ZipGetMany(store, dates, prefix - 1);
      assert dates[..prefix][..prefix - 1] == dates[..prefix - 1];
    }
  }

  /** The merged pre-read holds exactly the stored dates among those read,
      with their stored sets. */
  lemma MergeOfGetMany(store: DatesMap, dates: seq<string>)
    ensures MergeDateMap(dates, GetMany(store, dates)) == map d | d in store && d in dates :: store[d]
  {
    ZipGetMany(store, dates, |dates|);
    assert dates[..|dates|] == dates;
  }

  /** The part of the store a batch pre-reads. */
  function PreRead(store: DatesMap, changes: seq<Change>): DatesMap {
    map d | d in store && d in BatchTouchedDates(changes) :: store[d]
  }

  /** The in-memory map a batch computes: its changes applied, in order,
      to the part of the store it pre-reads. */
  function BatchMap(changes: seq<Change>, store: DatesMap): DatesMap {
    ApplyChanges(changes, PreRead(store, changes))
  }

  /** `getCompleteDateMap`: reads the batch's unique dates from the store,
      merges the answers and applies the changes. The merged answers are
      exactly the pre-read part of the store. */
  method CompleteDateMap(changes: seq<Change>, store: DatesMap) returns (dm: DatesMap)
    ensures dm == BatchMap(changes, store)
  {
    var dates := UniqueDates(changes);
    var merged := MergeDateMap(dates, GetMany(store, dates));
    MergeOfGetMany(store, dates);
    assert merged == PreRead(store, changes) by {
      assert merged.Keys == PreRead(store, changes).Keys;
    }
    dm := ApplyChanges(changes, merged);
  }

  /** The batch's map holds only touched dates, and every touched date the
      store holds. */
  lemma BatchMapKeys(changes: seq<Change>, store: DatesMap)
    ensures BatchMap(changes, store).Keys <= BatchTouchedDates(changes)
    ensures forall d :: d in store && d in BatchTouchedDates(changes) ==> d in BatchMap(changes, store)
  {
    ApplyChangesFrame(changes, PreRead(store, changes));
  }

  // ---------------------------------------------------------------------
  // Committing (`updateChanges`)
  // ---------------------------------------------------------------------

  /** `RemoteMap.setAll`. */
  function SetAll(store: DatesMap, entries: seq<(string, set<string>)>): (r: DatesMap)
    ensures forall k :: k in r <==> k in store || exists i :: 0 <= i < |entries| && entries[i].0 == k
    decreases |entries|
  {
    if |entries| == 0 then store
    else
      var last := |entries| - 1;
      SetAll(store, entries[..last])[entries[last].0 := entries[last].1]
  }

  /** `RemoteMap.deleteAll`. */
  function DeleteAll(store: DatesMap, keys: seq<string>): (r: DatesMap)
    ensures r.Keys == store.Keys - set k | k in keys
    ensures forall k :: k in r ==> r[k] == store[k]
  {
    store - set k | k in keys
  }

  lemma {:induction false} SetAllValue(store: DatesMap, entries: seq<(string, set<string>)>, k: string, v: set<string>)
    requires forall i :: 0 <= i < |entries| && entries[i].0 == k ==> entries[i].1 == v
    ensures k in SetAll(store, entries) && k !in store ==> exists i :: 0 <= i < |entries| && entries[i].0 == k
    ensures (exists i :: 0 <= i < |entries| && entries[i].0 == k) ==> SetAll(store, entries)[k] == v
    ensures (forall i :: 0 <= i < |entries| ==> entries[i].0 != k) && k in store ==> SetAll(store, entries)[k] == store[k]
    decreases |entries|
  {
    if |entries| > 0 {
      var last := |entries| - 1;
      SetAllValue(store, entries[..last], k, v);
      if entries[last].0 != k {
        if exists i :: 0 <= i < |entries| && entries[i].0 == k {
          var i :| 0 <= i < |entries| && entries[i].0 == k;
          assert entries[..last][i] == entries[i];
        }
      }
    }
  }

  predicate IsEmptyAt(dm: DatesMap, k: string) {
    k in dm && dm[k] == {}
  }

  /** Writes the touched dates back: `_.partition` of the map's keys into
      those whose set is empty, deleted, and the rest, written. */
  function Commit(store: DatesMap, dm: DatesMap, keys: seq<string>): (r: DatesMap)
    requires forall k :: k in keys <==> k in dm
    ensures forall k :: k in dm ==> (k in r <==> dm[k] != {}) && (k in r ==> r[k] == dm[k])
    ensures forall k :: k !in dm ==> (k in r <==> k in store) && (k in r ==> r[k] == store[k])
  {
    var toBeRemoved := Seqs.Filter(k => IsEmptyAt(dm, k), keys);
    var toBeSet := Seqs.Filter(k => !IsEmptyAt(dm, k), keys);
    var entries := Seqs.Map(k => (k, if k in dm then dm[k] else {}), toBeSet);
    var r := DeleteAll(SetAll(store, entries), toBeRemoved);
    assert forall k :: k in dm ==> (k in r <==> dm[k] != {}) && (k in r ==> r[k] == dm[k]) by {
      forall k | k in dm
        ensures (k in r <==> dm[k] != {}) && (k in r ==> r[k] == dm[k])
      {
        SetAllValue(store, entries, k, dm[k]);
        if dm[k] != {} {
          var i :| 0 <= i < |toBeSet| && toBeSet[i] == k;
          assert entries[i].0 == k;
        }
      }
    }
    assert forall k :: k !in dm ==> (k in r <==> k in store) && (k in r ==> r[k] == store[k]) by {
      forall k | k !in dm
        ensures (k in r <==> k in store) && (k in r ==> r[k] == store[k])
      {
        SetAllValue(store, entries, k, {});
        assert forall i :: 0 <= i < |entries| ==> entries[i].0 != k by {
          forall i | 0 <= i < |entries| ensures entries[i].0 != k {
            assert toBeSet[i] in toBeSet;
          }
        }
      }
    }
    r
  }

  /** The store with the touched dates written back: a touched date holds
      its computed set, or is absent when that set is empty or was never
      computed; every other date keeps its stored set. */
  function Overlay(store: DatesMap, dm: DatesMap, touched: set<string>): DatesMap {
    map d | d in store.Keys + dm.Keys && (if d in touched then d in dm && dm[d] != {} else d in store)
      :: if d in touched then dm[d] else store[d]
  }

  /** The index a batch leaves behind. */
  function IndexAfter(changes: seq<Change>, store: DatesMap): DatesMap {
    Overlay(store, BatchMap(changes, store), BatchTouchedDates(changes))
  }

  lemma MapsEqual<K, V>(a: map<K, V>, b: map<K, V>)
    requires forall k :: k in a ==> k in b
    requires forall k :: k in b ==> k in a && a[k] == b[k]
    ensures a == b
  {
    assert a.Keys == b.Keys;
  }

  /** Writing back a map that holds only touched dates, and every touched
      date the store holds, overlays it on the store. */
  lemma CommitIsOverlay(store: DatesMap, dm: DatesMap, keys: seq<string>, touched: set<string>)
    requires forall k :: k in keys <==> k in dm
    requires dm.Keys <= touched
    requires forall d :: d in store && d in touched ==> d in dm
    ensures Commit(store, dm, keys) == Overlay(store, dm, touched)
  {
    MapsEqual(Commit(store, dm, keys), Overlay(store, dm, touched));
  }

  /** `updateChanges`: computes the batch's map, then deletes its empty
      dates from the store and writes the others. */
  method UpdateChanges(changes: seq<Change>, store: DatesMap) returns (r: DatesMap)
    ensures r == IndexAfter(changes, store)
  {
    var dm := CompleteDateMap(changes, store);
    var dates := UniqueDates(changes);
    BatchMapKeys(changes, store);
    var keys := Seqs.Filter(k => k in dm, dates);
    assert forall k :: k in keys <==> k in dm;
    r := Commit(store, dm, keys);
    CommitIsOverlay(store, dm, keys, BatchTouchedDates(changes));
  }

  // ---------------------------------------------------------------------
  // The entry point (`updateChangedAtIndex`)
  // ---------------------------------------------------------------------

  /** The two persisted maps the entry point updates. */
  datatype Stores = Stores(index: DatesMap, versions: map<string, int>)

  predicate VersionMatches(versions: map<string, int>) {
    ChangedAtIndexKey in versions && versions[ChangedAtIndexKey] == ChangedAtIndexVersion
  }

  /** `updateChangedAtIndex`. `allElementsChanges` stands for what
      `getAllElementsChanges` returns: it is used only when the stored
      version does not match. A stale version or an invalid cache clears
      the index and stores the current version before the batch is
      applied. */
  method UpdateChangedAtIndex(
    changes: seq<Change>, stores: Stores, allElementsChanges: seq<Change>, isCacheValid: bool) returns (r: Stores)
    ensures VersionMatches(r.versions)
    ensures VersionMatches(stores.versions) && isCacheValid ==> r == stores.(index := IndexAfter(changes, stores.index))
    ensures !VersionMatches(stores.versions) || !isCacheValid ==>
      r.versions == stores.versions[ChangedAtIndexKey := ChangedAtIndexVersion]
    ensures !VersionMatches(stores.versions) ==> r.index == IndexAfter(allElementsChanges, map[])
    ensures VersionMatches(stores.versions) && !isCacheValid ==> r.index == IndexAfter(changes, map[])
  {
    var isVersionMatch := VersionMatches(stores.versions);
    var relevantChanges := if isVersionMatch then changes else allElementsChanges;
    var cleared := stores;
    if !isCacheValid || !isVersionMatch {
      cleared := Stores(map[], stores.versions[ChangedAtIndexKey := ChangedAtIndexVersion]);
    }
    var index := UpdateChanges(relevantChanges, cleared.index);
    r := cleared.(index := index);
  }
}
