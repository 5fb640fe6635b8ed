/** Jira field contexts: the decision whether a change to a context's
    default value must be sent to the service and the body it sends, and the
    choice of the default-value type's fields that become deployable. */
module DefaultValues {
  import opened Values
  import opened Elements
  import Seqs

  const EditableFieldNames: seq<string> := [
    "type", "optionId", "cascadingOptionId", "optionIds", "accountId", "userFilter", "accountIds",
    "groupId", "groupIds", "date", "useCurrent", "dateTime", "url", "projectId", "number", "labels",
    "text", "versionId", "versionOrder", "versionIds"
  ]

  /** The keys whose values survive when a default value is deleted. */
  predicate KeptOnDelete(key: string) { key == "contextId" || key == "type" }

  /** The `defaultValue` of the context before the change, if it existed. */
  function BeforeDefault(c: Change): JsValue {
    match c
    case Addition(_) => Undefined
    case Removal(before) => if before.Instance? then Get(before.value, "defaultValue") else Undefined
    case Modification(before, _) => if before.Instance? then Get(before.value, "defaultValue") else Undefined
  }

  /** The `defaultValue` of the context after the change, if it exists. */
  function AfterDefault(c: Change): JsValue {
    match c
    case Addition(after) => if after.Instance? then Get(after.value, "defaultValue") else Undefined
    case Removal(_) => Undefined
    case Modification(_, after) => if after.Instance? then Get(after.value, "defaultValue") else Undefined
  }

  /** `_.mapValues(before, …)` deleting a default value: every key is set to
      `null` except `contextId` and `type`. A value that is not a plain
      object has no keys to map. */
  function Cleared(before: JsValue): (r: map<string, JsValue>)
    ensures before.Obj? ==> r.Keys == before.fields.Keys
    ensures !before.Obj? ==> r == map[]
    ensures forall k :: k in r ==> r[k] == (if KeptOnDelete(k) then before.fields[k] else Null)
  {
    if before.Obj? then map k | k in before.fields :: if KeptOnDelete(k) then before.fields[k] else Null
    else map[]
  }

  /** The entries of a value spread into an object literal. */
  function Spread(v: JsValue): map<string, JsValue> {
    if v.Obj? then v.fields else map[]
  }

  /** The request `updateDefaultValues` sends. */
  datatype Request = Request(url: string, defaultValues: seq<map<string, JsValue>>)

  /** `updateDefaultValues` on a change whose references are already
      resolved: nothing for a removal or an unchanged default, otherwise the
      default to send, with the context's id as `contextId`. `parentId` is
      the id of the field that owns the context. */
  function UpdateDefaultValues(c: Change, parentId: JsValue): Option<Request>
    requires IsInstanceChange(c)
  {
    var before := BeforeDefault(c);
    var after := AfterDefault(c);
    if c.Removal? || before == after then None
    else
      var toUpdate := if after != Undefined && after != Null then Spread(after) else Cleared(before);
      var context := ChangeData(c);
      Some(Request(
        "/rest/api/3/field/" + ToJsString(parentId) + "/context/defaultValue",
        [toUpdate["contextId" := Get(context.value, "id")]]))
  }

  /** What is sent, when something is. A removal or an unchanged default
      sends nothing; anything else sends one default value to the owning
      field's endpoint whose `contextId` is the context's `id`. A new
      default is sent as it is otherwise; a deleted one keeps only its
      `contextId` and `type` and has every other key set to `null`. */
  lemma UpdateDefaultValuesSpec(c: Change, parentId: JsValue)
    requires IsInstanceChange(c)
    ensures var r := UpdateDefaultValues(c, parentId);
      var before := BeforeDefault(c);
      var after := AfterDefault(c);
      && (r.None? <==> c.Removal? || before == after)
      && (r.Some? ==>
            && r.value.url == "/rest/api/3/field/" + ToJsString(parentId) + "/context/defaultValue"
            && |r.value.defaultValues| == 1
            && "contextId" in r.value.defaultValues[0]
            && r.value.defaultValues[0]["contextId"] == Get(ChangeData(c).value, "id"))
  {
  }

  lemma NewDefaultSent(c: Change, parentId: JsValue)
    requires IsInstanceChange(c) && !c.Removal?
    requires BeforeDefault(c) != AfterDefault(c) && AfterDefault(c).Obj?
    ensures var sent := UpdateDefaultValues(c, parentId).value.defaultValues[0];
      && sent.Keys == AfterDefault(c).fields.Keys + {"contextId"}
      && forall k :: k in AfterDefault(c).fields && k != "contextId" ==> sent[k] == AfterDefault(c).fields[k]
  {
  }

  lemma DeletedDefaultCleared(c: Change, parentId: JsValue)
    requires IsInstanceChange(c) && c.Modification?
    requires BeforeDefault(c).Obj? && AfterDefault(c) == Undefined
    ensures var sent := UpdateDefaultValues(c, parentId).value.defaultValues[0];
      && sent.Keys == BeforeDefault(c).fields.Keys + {"contextId"}
      && (forall k :: k in sent && k != "contextId" && k != "type" ==> sent[k] == Null)
      && ("type" in BeforeDefault(c).fields ==> sent["type"] == BeforeDefault(c).fields["type"])
  {
  }

  /** What `setDefaultValueTypeDeploymentAnnotations` marks deployable: the
      context type's `defaultValue` field and these fields of its type. */
  datatype Annotated = Annotated(defaultValueFields: seq<string>)

  datatype AnnotateError =
    /** The `defaultValue` field is missing, so its type is undefined and
        building the message fails on it. */
    | MissingDefaultValueField
    /** The field's type is not an object type. */
    | NotObjectType(typeName: string, fieldName: string)

  function FieldNames(fields: seq<Field>): set<string> {
    set f | f in fields :: f.name
  }

  /** `setDefaultValueTypeDeploymentAnnotations`: `defaultValueType` is
      what the `defaultValue` field's type resolves to, if the field
      exists. */
  function SetDefaultValueTypeDeploymentAnnotations(defaultValueField: Option<Field>, defaultValueType: Element): (r: Result<Annotated, AnnotateError>)
    ensures defaultValueField.None? ==> r == Err(MissingDefaultValueField)
    ensures defaultValueField.Some? && !defaultValueType.ObjectType? ==> r.Err? && r.error.NotObjectType?
    ensures defaultValueField.Some? && defaultValueType.ObjectType? ==> r.Ok?
    ensures r.Ok? ==> (defaultValueType.ObjectType?
      && forall n :: n in r.value.defaultValueFields <==> n in EditableFieldNames && n in FieldNames(defaultValueType.fields))
  {
    if defaultValueField.None? then Err(MissingDefaultValueField)
    else if !defaultValueType.ObjectType? then
      Err(NotObjectType(FullName(IdOf(defaultValueType)), FullName(defaultValueField.value.id)))
    else
      var present := FieldNames(defaultValueType.fields);
      Ok(Annotated(Seqs.Filter(n => n in present, EditableFieldNames)))
  }
}
