/** The element graph as the adapters and the workspace see it: element
    ids, type definitions, fields, instances, and the changes between two
    versions of an element. */
module Elements {
  import opened Values
  import Seqs

  datatype IdType = TypeId | FieldId | InstanceId | AttrId | AnnotationId | VarId

  function IdTypeName(t: IdType): string {
    match t
    case TypeId => "type"
    case FieldId => "field"
    case InstanceId => "instance"
    case AttrId => "attr"
    case AnnotationId => "annotation"
    case VarId => "var"
  }

  /** An element id: the adapter, the type name, the kind of id and the
      name parts below it. A type id carries no kind part in its full name. */
  datatype ElemId = ElemId(adapter: string, typeName: string, idType: IdType, nameParts: seq<string>)

  predicate NonEmpty(part: string) { part != "" }

  /** `getFullNameParts`: the id's parts, leaving out empty ones. */
  function FullNameParts(id: ElemId): seq<string> {
    var raw := if id.idType == TypeId
      then [id.adapter, id.typeName] + id.nameParts
      else [id.adapter, id.typeName, IdTypeName(id.idType)] + id.nameParts;
    Seqs.Filter(NonEmpty, raw)
  }

  /** `getFullName`: the parts joined by `.`. */
  function FullName(id: ElemId): string {
    Seqs.Join(FullNameParts(id), ".")
  }

  /** `name`: the last part of the full name. */
  function Name(id: ElemId): string {
    var parts := FullNameParts(id);
    if |parts| == 0 then "" else parts[|parts| - 1]
  }

  /** Annotations and instance values are plain objects. */
  type Annotations = Values

  /** A field of an object type: its name (the key in the type's `fields`
      record), its id and its annotations. */
  datatype Field = Field(name: string, id: ElemId, annotations: Annotations)

  /** What `instance.getType()` resolves to: the type's id and annotations. */
  datatype TypeRef = TypeRef(id: ElemId, annotations: Annotations)

  datatype Element =
    | ObjectType(id: ElemId, annotations: Annotations, fields: seq<Field>)
    | PrimitiveType(id: ElemId, annotations: Annotations)
    | FieldElement(field: Field)
    | Instance(id: ElemId, refType: TypeRef, annotations: Annotations, value: Values)

  function IdOf(e: Element): ElemId {
    if e.FieldElement? then e.field.id else e.id
  }

  function AnnotationsOf(e: Element): Annotations {
    if e.FieldElement? then e.field.annotations else e.annotations
  }

  predicate IsInstance(e: Element) { e.Instance? }

  datatype Action = Add | Modify | Remove

  /** The action's name as a change reports it. */
  function ActionName(a: Action): string {
    match a
    case Add => "add"
    case Modify => "modify"
    case Remove => "remove"
  }

  datatype Change =
    | Addition(after: Element)
    | Removal(before: Element)
    | Modification(before: Element, after: Element)

  function ActionOf(c: Change): Action {
    match c
    case Addition(_) => Add
    case Removal(_) => Remove
    case Modification(_, _) => Modify
  }

  /** `getChangeData`: the element after the change, or before it for a
      removal. */
  function ChangeData(c: Change): Element {
    match c
    case Addition(after) => after
    case Removal(before) => before
    case Modification(_, after) => after
  }

  predicate IsInstanceChange(c: Change) { ChangeData(c).Instance? }

  predicate IsAdditionOrModification(c: Change) { !c.Removal? }

  predicate IsRemovalOrModification(c: Change) { !c.Addition? }

  datatype Severity = Info | Warning | Error

  /** What a change validator reports about one change. */
  datatype ChangeError = ChangeError(elemId: ElemId, severity: Severity, message: string, detailedMessage: string)
}
