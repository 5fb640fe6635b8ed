/** The NetSuite change validator that refuses adding or modifying anything
    other than an instance: type definitions are read only. */
module InstanceChanges {
  import opened Elements
  import Seqs

  const Message := "Type definitions are read only"

  predicate IsNotInstance(e: Element) { !IsInstance(e) }

  function ReadOnlyError(e: Element): ChangeError {
    ChangeError(IdOf(e), Error, Message, "Changing (" + Name(IdOf(e)) + ") is not supported")
  }

  /** The validator as a chain: keep additions and modifications, take the
      element after the change, keep the non-instances, report each. */
  function Validate(changes: seq<Change>): seq<ChangeError> {
    var kept := Seqs.Filter(IsAdditionOrModification, changes);
    var elements := Seqs.Map(ChangeData, kept);
    Seqs.Map(ReadOnlyError, Seqs.Filter(IsNotInstance, elements))
  }

  /** The change adds or modifies something that is not an instance. */
  predicate Refused(c: Change) { !c.Removal? && !ChangeData(c).Instance? }

  /** The reference: change by change, an error exactly for a refused one. */
  function Reference(changes: seq<Change>): (r: seq<ChangeError>)
    ensures |r| <= |changes|
  {
    if |changes| == 0 then []
    else (if Refused(changes[0]) then [ReadOnlyError(ChangeData(changes[0]))] else []) + Reference(changes[1..])
  }

  lemma {:induction false} ValidateIsReference(changes: seq<Change>)
    ensures Validate(changes) == Reference(changes)
  {
    if |changes| > 0 {
      var c := changes[0];
      var rest := changes[1..];
      assert changes == [c] + rest;
      ValidateIsReference(rest);
      Seqs.FilterCons(IsAdditionOrModification, c, rest);
      var kept := Seqs.Filter(IsAdditionOrModification, rest);
      if IsAdditionOrModification(c) {
        Seqs.MapConcat(ChangeData, [c], kept);
        var elements := Seqs.Map(ChangeData, kept);
        assert Seqs.Map(ChangeData, [c]) == [ChangeData(c)];
        Seqs.FilterCons(IsNotInstance, ChangeData(c), elements);
        Seqs.MapConcat(ReadOnlyError, [ChangeData(c)], Seqs.Filter(IsNotInstance, elements));
      }
    }
  }

  /** An error is reported exactly for each refused change, about the
      element the change leaves behind; removals and instances pass. */
  lemma {:induction false} ErrorIffRefused(changes: seq<Change>, e: ChangeError)
    ensures e in Reference(changes) <==> exists c :: c in changes && Refused(c) && e == ReadOnlyError(ChangeData(c))
  {
    if |changes| > 0 {
      ErrorIffRefused(changes[1..], e);
      assert changes == [changes[0]] + changes[1..];
      assert forall c :: c in changes <==> c == changes[0] || c in changes[1..];
    }
  }

  lemma {:induction false} ReferenceConcat(a: seq<Change>, b: seq<Change>)
    ensures Reference(a + b) == Reference(a) + Reference(b)
  {
    if |a| == 0 {
      assert a + b == b;
    } else {
      assert (a + b)[1..] == a[1..] + b;
      ReferenceConcat(a[1..], b);
    }
  }
}
