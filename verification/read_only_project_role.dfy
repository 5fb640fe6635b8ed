/** The Jira change validator that refuses any change to, or removal of, the
    project role the Atlassian add-ons rely on. */
module ReadOnlyProjectRole {
  import opened Values
  import opened Elements
  import Seqs

  const RoleName := "atlassian-addons-project-access"
  const ProjectRoleType := "ProjectRole"
  const Message := "Deploying a change to \"atlassian-addons-project-access\" Project rule is not supported"

  /** The third and fourth filters of the validator. The fourth reads the
      instance's value, which the first filter has made sure exists. */
  predicate IsProjectRole(c: Change) { IdOf(ChangeData(c)).typeName == ProjectRoleType }

  predicate IsAddonsRole(c: Change) {
    ChangeData(c).Instance? && Get(ChangeData(c).value, "name") == Str(RoleName)
  }

  function RoleError(c: Change): ChangeError {
    ChangeError(IdOf(ChangeData(c)), Error, Message, Message)
  }

  /** `readOnlyProjectRoleChangeValidator`: the filter chain, then one error
      per change that passes it. */
  function Validate(changes: seq<Change>): seq<ChangeError> {
    var instances := Seqs.Filter(IsInstanceChange, changes);
    var existing := Seqs.Filter(IsRemovalOrModification, instances);
    var roles := Seqs.Filter(IsProjectRole, existing);
    var addons := Seqs.Filter(IsAddonsRole, roles);
    Seqs.Map(RoleError, addons)
  }

  /** The change touches an existing instance of the add-ons role. */
  predicate Refused(c: Change) {
    IsInstanceChange(c) && !c.Addition? && IdOf(ChangeData(c)).typeName == ProjectRoleType
    && Get(ChangeData(c).value, "name") == Str(RoleName)
  }

  /** The reference: change by change, an error exactly for a refused one. */
  function Reference(changes: seq<Change>): (r: seq<ChangeError>)
    ensures |r| <= |changes|
  {
    if |changes| == 0 then []
    else (if Refused(changes[0]) then [RoleError(changes[0])] else []) + Reference(changes[1..])
  }

  /** The validator is the reference, on every input. */
  lemma {:induction false} ValidateIsReference(changes: seq<Change>)
    ensures Validate(changes) == Reference(changes)
  {
    if |changes| > 0 {
      var c := changes[0];
      var rest := changes[1..];
      assert changes == [c] + rest;
      ValidateIsReference(rest);
      Seqs.FilterCons(IsInstanceChange, c, rest);
      var instances := Seqs.Filter(IsInstanceChange, rest);
      if IsInstanceChange(c) {
        Seqs.FilterCons(IsRemovalOrModification, c, instances);
        var existing := Seqs.Filter(IsRemovalOrModification, instances);
        if IsRemovalOrModification(c) {
          Seqs.FilterCons(IsProjectRole, c, existing);
          var roles := Seqs.Filter(IsProjectRole, existing);
          if IsProjectRole(c) {
            Seqs.FilterCons(IsAddonsRole, c, roles);
            Seqs.MapConcat(RoleError, [c], Seqs.Filter(IsAddonsRole, roles));
          }
        }
      }
    }
  }

  /** An error is reported exactly for each refused change, about that
      change's instance; additions and non-instances are never refused. */
  lemma {:induction false} ErrorIffRefused(changes: seq<Change>, e: ChangeError)
    ensures e in Reference(changes) <==> exists c :: c in changes && Refused(c) && e == RoleError(c)
  {
    if |changes| > 0 {
      ErrorIffRefused(changes[1..], e);
      assert changes == [changes[0]] + changes[1..];
      assert forall c :: c in changes <==> c == changes[0] || c in changes[1..];
    }
  }

  /** The validator reports about two batches what it reports about each. */
  lemma {:induction false} ReferenceConcat(a: seq<Change>, b: seq<Change>)
    ensures Reference(a + b) == Reference(a) + Reference(b)
  {
    if |a| == 0 {
      assert a + b == b;
    } else {
      assert (a + b)[1..] == a[1..] + b;
      ReferenceConcat(a[1..], b);
    }
  }
}
