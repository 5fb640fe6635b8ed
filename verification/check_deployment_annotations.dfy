/** The core change validator that refuses changes a type's deployment
    annotations forbid: a whole instance whose type does not support the
    change's action is an error; a field inside an instance whose field
    definition does not support it is a warning, and that part of the value
    is left out of the deploy. */
module CheckDeploymentAnnotations {
  import opened Values
  import opened Elements
  import Seqs

  /** The annotation that says whether an action is supported. */
  function OperationAnnotation(a: Action): string {
    match a
    case Add => "_creatable"
    case Modify => "_updatable"
    case Remove => "_deletable"
  }

  /** An action is supported unless its annotation is set to a falsy value
      other than `undefined`. */
  predicate IsDeploymentSupported(annotations: Annotations, a: Action) {
    var v := Get(annotations, OperationAnnotation(a));
    Truthy(v) || v == Undefined
  }

  lemma UnsupportedIffFalsyDefined(annotations: Annotations, a: Action)
    ensures !IsDeploymentSupported(annotations, a) <==>
      OperationAnnotation(a) in annotations
      && annotations[OperationAnnotation(a)] in {Null, Bool(false), Num(0), Str("")}
  {
  }

  function ErrorMessage(id: ElemId): string {
    "The change of " + FullName(id) + " is not supported and will be omitted from deploy"
  }

  function TopLevelDetail(a: Action, id: ElemId): string {
    "\"" + ActionName(a) + "\" operation on " + FullName(id) + " is not supported"
  }

  /** `createNestedID`: the id of a value below `base`, reached by `keys`. */
  function Nested(base: ElemId, keys: seq<string>): ElemId {
    base.(nameParts := base.nameParts + keys)
  }

  /** The last `|keys|` parts of the nested id's full name, joined by `.`. */
  function NestedPart(base: ElemId, keys: seq<string>): string {
    Seqs.Join(Seqs.SliceLast(FullNameParts(Nested(base, keys)), |keys|), ".")
  }

  /** The detail of a warning about the value at `keys` inside the instance
      `base`, whose id is the parent of the nested one. */
  function NestedDetail(base: ElemId, keys: seq<string>): string {
    "Deploying \"" + NestedPart(base, keys) + "\" in " + FullName(base) + " is not supported"
  }

  /** Filtering out empty parts commutes with appending non-empty ones. */
  lemma {:induction false} FilterNonEmptyAppend(raw: seq<string>, keys: seq<string>)
    requires forall k :: k in keys ==> k != ""
    ensures Seqs.Filter(NonEmpty, raw + keys) == Seqs.Filter(NonEmpty, raw) + keys
  {
    Seqs.FilterConcat(NonEmpty, raw, keys);
    Seqs.FilterAll(NonEmpty, keys);
  }

  lemma NestedNameParts(base: ElemId, keys: seq<string>)
    requires forall k :: k in keys ==> k != ""
    ensures FullNameParts(Nested(base, keys)) == FullNameParts(base) + keys
  {
    var head := if base.idType == TypeId then [base.adapter, base.typeName]
      else [base.adapter, base.typeName, IdTypeName(base.idType)];
    assert head + (base.nameParts + keys) == (head + base.nameParts) + keys;
    FilterNonEmptyAppend(head + base.nameParts, keys);
  }

  /** When no key is empty, the nested part of the message is exactly the
      keys below the instance, joined by `.`. */
  lemma NestedPartIsKeys(base: ElemId, keys: seq<string>)
    requires |keys| > 0
    requires forall k :: k in keys ==> k != ""
    ensures NestedPart(base, keys) == Seqs.Join(keys, ".")
  {
    NestedNameParts(base, keys);
    var parts := FullNameParts(base) + keys;
    assert Seqs.SliceLast(parts, |keys|) == parts[|parts| - |keys|..];
    assert parts[|parts| - |keys|..] == keys;
  }

  /** A field definition as a value is visited with: its id and annotations. */
  datatype FieldDef = FieldDef(id: ElemId, annotations: Annotations)

  /** One entry of an instance's value as the value walk visits it: its key,
      the field definition it is visited with (none when the type declares
      no field for it) and the entries below it. */
  datatype ValueNode = ValueNode(key: string, field: Option<FieldDef>, children: seq<ValueNode>)

  /** An unsupported value: its field's id, the keys leading to it and the
      positions of those entries among their siblings. */
  datatype Hit = Hit(field: ElemId, keys: seq<string>, at: seq<nat>)

  /** Prefixes a hit found below an entry with that entry. */
  function Under(key: string, i: nat, h: Hit): Hit {
    Hit(h.field, [key] + h.keys, [i] + h.at)
  }

  /** What the walk reports for the entry at position `i`: nothing for an
      entry without a field, the entry itself when its field does not
      support the action (without looking inside it), and otherwise what it
      finds below the entry. */
  function NodeHits(nodes: seq<ValueNode>, i: nat, a: Action): seq<Hit>
    requires i < |nodes|
    decreases nodes, |nodes| - i, 0
  {
    var n := nodes[i];
    match n.field
    case None => []
    case Some(f) =>
      if !IsDeploymentSupported(f.annotations, a) then [Hit(f.id, [n.key], [i])]
      else Seqs.Map((h: Hit) => Under(n.key, i, h), WalkFrom(n.children, 0, a))
  }

  /** `getUnsupportedPaths`, over the entries from position `i` on, in
      order. */
  function WalkFrom(nodes: seq<ValueNode>, i: nat, a: Action): seq<Hit>
    decreases nodes, |nodes| - i, 1
  {
    if i >= |nodes| then [] else NodeHits(nodes, i, a) + WalkFrom(nodes, i + 1, a)
  }

  function UnsupportedPaths(nodes: seq<ValueNode>, a: Action): seq<Hit> {
    WalkFrom(nodes, 0, a)
  }

  /** The reference: the hit that the entry at position path `p` stands for,
      if it is one. It is one when every entry above it has a field that
      supports the action and its own field does not. */
  ghost function HitAt(nodes: seq<ValueNode>, p: seq<nat>, a: Action): Option<Hit>
    decreases p
  {
    if |p| == 0 || p[0] >= |nodes| then None
    else
      var n := nodes[p[0]];
      match n.field
      case None => None
      case Some(f) =>
        if !IsDeploymentSupported(f.annotations, a) then
          (if |p| == 1 then Some(Hit(f.id, [n.key], p)) else None)
        else
          match HitAt(n.children, p[1..], a)
          case None => None
          case Some(h) => Some(Under(n.key, p[0], h))
  }

  /** A hit sits at the path it was looked up by, one key per entry on the
      way. */
  lemma {:induction false} HitAtShape(nodes: seq<ValueNode>, p: seq<nat>, a: Action)
    ensures HitAt(nodes, p, a).Some? ==>
      HitAt(nodes, p, a).value.at == p && |HitAt(nodes, p, a).value.keys| == |p| > 0
    decreases p
  {
    if |p| > 1 && p[0] < |nodes| {
      HitAtShape(nodes[p[0]].children, p[1..], a);
    }
  }

  lemma UnderInjective(key: string, i: nat, g: Hit, h: Hit)
    ensures Under(key, i, g) == Under(key, i, h) ==> g == h
  {
    if Under(key, i, g) == Under(key, i, h) {
      assert g.keys == Under(key, i, g).keys[1..];
      assert h.keys == Under(key, i, h).keys[1..];
      assert g.at == Under(key, i, g).at[1..];
      assert h.at == Under(key, i, h).at[1..];
    }
  }

  lemma HitAtUnder(nodes: seq<ValueNode>, i: nat, a: Action, h: Hit)
    requires i < |nodes| && nodes[i].field.Some?
    requires IsDeploymentSupported(nodes[i].field.value.annotations, a)
    ensures HitAt(nodes, Under(nodes[i].key, i, h).at, a) == Some(Under(nodes[i].key, i, h))
        <==> HitAt(nodes[i].children, h.at, a) == Some(h)
  {
    var u := Under(nodes[i].key, i, h);
    assert u.at[0] == i && u.at[1..] == h.at;
    var below := HitAt(nodes[i].children, h.at, a);
    assert HitAt(nodes, u.at, a) == if below.None? then None else Some(Under(nodes[i].key, i, below.value));
    if below.Some? {
      UnderInjective(nodes[i].key, i, below.value, h);
    }
  }

  /** `h` is the hit of its path, and that path starts at or after `i`. */
  ghost predicate HitFrom(nodes: seq<ValueNode>, i: nat, a: Action, h: Hit) {
    |h.at| > 0 && h.at[0] >= i && HitAt(nodes, h.at, a) == Some(h)
  }

  /** The hits the walk reports for one entry are those whose path starts
      there. */
  lemma {:induction false} NodeHitsSpec(nodes: seq<ValueNode>, i: nat, a: Action)
    requires i < |nodes|
    ensures forall h :: h in NodeHits(nodes, i, a) <==> HitFrom(nodes, i, a, h) && h.at[0] == i
    decreases nodes, |nodes| - i, 0
  {
    var n := nodes[i];
    match n.field
    case None =>
    case Some(f) =>
      if !IsDeploymentSupported(f.annotations, a) {
        forall h ensures h in NodeHits(nodes, i, a) <==> HitFrom(nodes, i, a, h) && h.at[0] == i
        {
          if |h.at| > 0 && h.at[0] == i {
            assert HitAt(nodes, h.at, a) == if |h.at| == 1 then Some(Hit(f.id, [n.key], h.at)) else None;
            if |h.at| == 1 {
              assert h.at == [i];
            }
          }
        }
      } else {
        var below := WalkFrom(n.children, 0, a);
        WalkFromSpec(n.children, 0, a);
        var mapped := Seqs.Map((h: Hit) => Under(n.key, i, h), below);
        assert NodeHits(nodes, i, a) == mapped;
        forall h ensures h in mapped <==> HitFrom(nodes, i, a, h) && h.at[0] == i
        {
          if h in mapped {
            var k :| 0 <= k < |below| && mapped[k] == h;
            assert below[k] in below;
            assert h == Under(n.key, i, below[k]);
            assert h.at[0] == i;
            HitAtUnder(nodes, i, a, below[k]);
          }
          if HitFrom(nodes, i, a, h) && h.at[0] == i {
            var g := HitAt(n.children, h.at[1..], a).value;
            assert h == Under(n.key, i, g);
            HitAtShape(n.children, h.at[1..], a);
            assert g.at == h.at[1..];
            assert HitFrom(n.children, 0, a, g);
            assert g in below;
            var k :| 0 <= k < |below| && below[k] == g;
            assert mapped[k] == h;
          }
        }
      }
  }

  /** Every hit the walk reports from position `i` on is the hit of its path,
      and every path at or after `i` that stands for a hit is reported. */
  lemma {:induction false} WalkFromSpec(nodes: seq<ValueNode>, i: nat, a: Action)
    ensures forall h :: h in WalkFrom(nodes, i, a) <==> HitFrom(nodes, i, a, h)
    decreases nodes, |nodes| - i, 1
  {
    if i < |nodes| {
      NodeHitsSpec(nodes, i, a);
      WalkFromSpec(nodes, i + 1, a);
    }
  }

  /** The walk reports exactly the hits of the instance's value. */
  lemma UnsupportedPathsSpec(nodes: seq<ValueNode>, a: Action)
    ensures forall h :: h in UnsupportedPaths(nodes, a) <==> HitAt(nodes, h.at, a) == Some(h)
  {
    WalkFromSpec(nodes, 0, a);
  }

  /** The error for an instance whose type does not support the action. */
  function TypeError(c: Change): ChangeError
    requires IsInstanceChange(c)
  {
    var inst := ChangeData(c);
    ChangeError(inst.id, Error, ErrorMessage(inst.refType.id), TopLevelDetail(ActionOf(c), inst.id))
  }

  /** The warning for one unsupported value inside the instance `id`. */
  function PathWarning(id: ElemId, h: Hit): ChangeError {
    ChangeError(id, Warning, ErrorMessage(h.field), NestedDetail(id, h.keys))
  }

  /** What the validator reports about one change. `diffTree` stands for
      the value walk over the change's diff instance. */
  function ChangeErrors(c: Change, diffTree: Change -> seq<ValueNode>): (r: seq<ChangeError>)
    ensures !IsInstanceChange(c) ==> r == []
    ensures IsInstanceChange(c) && !IsDeploymentSupported(ChangeData(c).refType.annotations, ActionOf(c)) ==>
      |r| == 1 && r[0].severity == Error && r[0].elemId == ChangeData(c).id
      && r[0].message == ErrorMessage(ChangeData(c).refType.id)
    ensures IsInstanceChange(c) && IsDeploymentSupported(ChangeData(c).refType.annotations, ActionOf(c)) && c.Removal? ==>
      r == []
    ensures IsInstanceChange(c) && IsDeploymentSupported(ChangeData(c).refType.annotations, ActionOf(c)) && !c.Removal? ==>
      |r| == |UnsupportedPaths(diffTree(c), ActionOf(c))|
      && forall k :: 0 <= k < |r| ==> r[k].severity == Warning && r[k].elemId == ChangeData(c).id
  {
    if !IsInstanceChange(c) then []
    else
      var inst := ChangeData(c);
      if !IsDeploymentSupported(inst.refType.annotations, ActionOf(c)) then [TypeError(c)]
      else if c.Removal? then []
      else Seqs.Map((h: Hit) => PathWarning(inst.id, h), UnsupportedPaths(diffTree(c), ActionOf(c)))
  }

  /** `checkDeploymentAnnotationsValidator`: the reports of every change, in
      order. */
  function Validate(changes: seq<Change>, diffTree: Change -> seq<ValueNode>): (r: seq<ChangeError>)
    ensures |changes| == 0 ==> r == []
  {
    if |changes| == 0 then []
    else ChangeErrors(changes[0], diffTree) + Validate(changes[1..], diffTree)
  }

  lemma {:induction false} ValidateConcat(a: seq<Change>, b: seq<Change>, diffTree: Change -> seq<ValueNode>)
    ensures Validate(a + b, diffTree) == Validate(a, diffTree) + Validate(b, diffTree)
  {
    if |a| == 0 {
      assert a + b == b;
    } else {
      assert (a + b)[1..] == a[1..] + b;
      ValidateConcat(a[1..], b, diffTree);
    }
  }

  /** `e` is the warning for an unsupported entry of `nodes`. */
  ghost predicate WarnsAboutHit(id: ElemId, nodes: seq<ValueNode>, a: Action, e: ChangeError) {
    exists h: Hit :: HitAt(nodes, h.at, a) == Some(h) && e == PathWarning(id, h)
  }

  lemma WarningsAreHits(id: ElemId, nodes: seq<ValueNode>, a: Action, e: ChangeError)
    ensures e in Seqs.Map((h: Hit) => PathWarning(id, h), UnsupportedPaths(nodes, a)) <==> WarnsAboutHit(id, nodes, a, e)
  {
    UnsupportedPathsSpec(nodes, a);
    Seqs.MapMember((h: Hit) => PathWarning(id, h), UnsupportedPaths(nodes, a), e);
  }

  /** A warning is reported for an instance exactly when its value has an
      unsupported entry, and says which: its message names the field and
      its detail the keys leading to the entry. */
  lemma WarningIffHit(c: Change, diffTree: Change -> seq<ValueNode>, e: ChangeError)
    requires IsInstanceChange(c) && !c.Removal?
    requires IsDeploymentSupported(ChangeData(c).refType.annotations, ActionOf(c))
    ensures e in ChangeErrors(c, diffTree) <==> WarnsAboutHit(ChangeData(c).id, diffTree(c), ActionOf(c), e)
  {
    WarningsAreHits(ChangeData(c).id, diffTree(c), ActionOf(c), e);
  }

  /** The change's instance has a type that does not support its action. */
  predicate TypeRejects(c: Change) {
    IsInstanceChange(c) && !IsDeploymentSupported(ChangeData(c).refType.annotations, ActionOf(c))
  }

  /** Every error the validator reports is the type error of one of the
      changes; every other report is a warning. */
  lemma {:induction false} ErrorsAreTypeErrors(changes: seq<Change>, diffTree: Change -> seq<ValueNode>)
    ensures forall e :: e in Validate(changes, diffTree) && e.severity == Error ==>
      exists c :: c in changes && TypeRejects(c) && e == TypeError(c)
    ensures forall e :: e in Validate(changes, diffTree) ==> e.severity in {Error, Warning}
  {
    if |changes| > 0 {
      ErrorsAreTypeErrors(changes[1..], diffTree);
      var c := changes[0];
      var here := ChangeErrors(c, diffTree);
      assert Validate(changes, diffTree) == here + Validate(changes[1..], diffTree);
      forall e | e in Validate(changes, diffTree) && e.severity == Error
        ensures exists c :: c in changes && TypeRejects(c) && e == TypeError(c)
      {
        if e in here {
          assert e == TypeError(c);
        } else {
          var c' :| c' in changes[1..] && TypeRejects(c') && e == TypeError(c');
          assert c' in changes;
        }
      }
    }
  }
}
