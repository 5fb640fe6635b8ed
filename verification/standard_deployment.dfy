/** Jira's standard deployment: deploying one change through the add, modify
    and remove endpoints and writing the new service id back, and running
    such a deployment over many changes to collect the applied changes and
    the errors. */
module StandardDeployment {
  import opened Values
  import opened Elements
  import Seqs

  const DefaultServiceIdField := "id"

  /** The type's `serviceIdField` when configured, `id` otherwise. */
  function ServiceIdField(configuredField: Option<string>): string {
    if configuredField.Some? then configuredField.value else DefaultServiceIdField
  }

  /** The instance after `defaultDeployChange` has seen the endpoint's
      response: for an addition whose response is not an array and carries
      the service-id field, that field is copied into the instance's value.
      `configuredField` is the type's `serviceIdField`, if configured. */
  function WriteBackServiceId(c: Change, response: JsValue, configuredField: Option<string>): Change
    requires IsInstanceChange(c)
  {
    if c.Addition? && !response.Arr? then
      var field := ServiceIdField(configuredField);
      var id := GetProp(response, field);
      if id != Undefined then Addition(c.after.(value := c.after.value[field := id])) else c
    else c
  }

  /** `defaultDeployChange`, with the call to the endpoint as an oracle: the
      response it returns and the change as it stands afterwards. The
      change is rewritten only for an addition whose object response
      defines the service-id field, and then only in that value key. */
  function DefaultDeployChange(c: Change, deployCall: Change -> JsValue, configuredField: Option<string>): (r: (JsValue, Change))
    requires IsInstanceChange(c)
    ensures r.0 == deployCall(c)
    ensures r.1 != c ==> c.Addition? && r.0.Obj? && Get(r.0.fields, ServiceIdField(configuredField)) != Undefined
    ensures c.Addition? && r.0.Obj? && Get(r.0.fields, ServiceIdField(configuredField)) != Undefined ==>
      var field := ServiceIdField(configuredField);
      r.1 == Addition(c.after.(value := c.after.value[field := r.0.fields[field]]))
  {
    var response := deployCall(c);
    (response, WriteBackServiceId(c, response, configuredField))
  }

  /** The change is left as it is unless it is an addition, the response is
      not an array and the service-id field (`id` unless configured) is
      defined in it; then only that key of the value changes, to the
      response's value. */
  lemma WriteBackSpec(c: Change, response: JsValue, configuredField: Option<string>)
    requires IsInstanceChange(c)
    ensures var field := ServiceIdField(configuredField);
      var r := WriteBackServiceId(c, response, configuredField);
      && (r != c ==> c.Addition? && !response.Arr? && response.Obj? && Get(response.fields, field) != Undefined)
      && (c.Addition? && response.Obj? && Get(response.fields, field) != Undefined ==>
            r.Addition? && r.after.Instance? && r.after.id == c.after.id
            && r.after.value.Keys == c.after.value.Keys + {field}
            && r.after.value[field] == response.fields[field]
            && forall k :: k in c.after.value && k != field ==> r.after.value[k] == c.after.value[k])
  {
  }

  /** Writing the same response back twice writes it once. */
  lemma WriteBackIdempotent(c: Change, response: JsValue, configuredField: Option<string>)
    requires IsInstanceChange(c)
    ensures WriteBackServiceId(WriteBackServiceId(c, response, configuredField), response, configuredField)
      == WriteBackServiceId(c, response, configuredField)
  {
    var r := WriteBackServiceId(c, response, configuredField);
    if r != c {
      var field := ServiceIdField(configuredField);
      assert r.after.value[field := GetProp(response, field)] == r.after.value;
    }
  }

  /** What the deploy function of one change threw: its rendering as a
      string (`${err}`), and for an HTTP error the body of the response. */
  datatype Failure = Thrown(rendered: string) | HttpFailure(rendered: string, data: JsValue)

  /** A reported error: the message the error carries after rewriting. */
  datatype DeployError = DeployError(message: string)

  datatype DeployResult = DeployResult(errors: seq<DeployError>, appliedChanges: seq<Change>)

  /** The error messages in the body of an HTTP error whose body is a plain
      object: the `errorMessages` array's entries, then the stringified
      `errors` object. `stringify` stands for `safeJsonStringify`. */
  function BodyMessages(data: map<string, JsValue>, stringify: JsValue -> string): seq<JsValue> {
    var listed := Get(data, "errorMessages");
    var errors := Get(data, "errors");
    (if listed.Arr? then listed.items else []) + (if errors.Obj? then [Str(stringify(errors))] else [])
  }

  function Prefix(c: Change, f: Failure): string {
    "Deployment of " + FullName(IdOf(ChangeData(c))) + " failed: " + f.rendered
  }

  /** The message of the error the deploy of `c` threw. */
  function FailureMessage(c: Change, f: Failure, stringify: JsValue -> string): string {
    var base := Prefix(c, f);
    if f.HttpFailure? && f.data.Obj? then
      var messages := BodyMessages(f.data.fields, stringify);
      if |messages| > 0 then base + ". " + JoinValues(messages, ", ") else base
    else base
  }

  /** The message is the prefix, followed, only when an HTTP error's body
      lists error messages, by `. ` and those messages joined by `, `. */
  lemma FailureMessageSpec(c: Change, f: Failure, stringify: JsValue -> string)
    ensures var m := FailureMessage(c, f, stringify); var p := Prefix(c, f);
      && |p| <= |m| && m[..|p|] == p
      && (f.HttpFailure? && f.data.Obj? && |BodyMessages(f.data.fields, stringify)| > 0 ==>
            m == p + ". " + JoinValues(BodyMessages(f.data.fields, stringify), ", "))
      && (!(f.HttpFailure? && f.data.Obj?) || |BodyMessages(f.data.fields, stringify)| == 0 ==> m == p)
  {
  }

  /** What one attempt yields: the change as the deploy function left it,
      or the rewritten error. */
  datatype Outcome = Applied(change: Change) | Failed(error: DeployError)

  /** One attempt of `deployChanges`. `deploy` stands for the deploy
      function of one change: it either throws (`Err`) or returns normally,
      and then yields the change object it was given, with whatever it wrote
      into that object (`Ok`). The error message names the change as it was
      passed in. */
  function Attempt(deploy: Change -> Result<Change, Failure>, stringify: JsValue -> string, c: Change): Outcome {
    match deploy(c)
    case Ok(deployed) => Applied(deployed)
    case Err(f) => Failed(DeployError(FailureMessage(c, f, stringify)))
  }

  function ErrorsOf(outcomes: seq<Outcome>): seq<DeployError> {
    if |outcomes| == 0 then []
    else (if outcomes[0].Failed? then [outcomes[0].error] else []) + ErrorsOf(outcomes[1..])
  }

  function AppliedOf(outcomes: seq<Outcome>): seq<Change> {
    if |outcomes| == 0 then []
    else (if outcomes[0].Applied? then [outcomes[0].change] else []) + AppliedOf(outcomes[1..])
  }

  /** `deployChanges`, with the deploy function of one change as an oracle:
      the attempts in order, partitioned into errors and applied changes. */
  function DeployChanges(changes: seq<Change>, deploy: Change -> Result<Change, Failure>, stringify: JsValue -> string): DeployResult {
    var outcomes := Seqs.Map(c => Attempt(deploy, stringify, c), changes);
    DeployResult(ErrorsOf(outcomes), AppliedOf(outcomes))
  }

  /** The reference: the changes whose deploy succeeded, as the deploy left
      them, in input order. */
  function Succeeded(deploy: Change -> Result<Change, Failure>, changes: seq<Change>): seq<Change> {
    if |changes| == 0 then []
    else (if deploy(changes[0]).Ok? then [deploy(changes[0]).value] else []) + Succeeded(deploy, changes[1..])
  }

  /** The reference: one error per failed change, in input order, with its
      rewritten message. */
  function FailedMessages(deploy: Change -> Result<Change, Failure>, stringify: JsValue -> string, changes: seq<Change>): seq<DeployError> {
    if |changes| == 0 then []
    else
      var c := changes[0];
      var here := if deploy(c).Err? then [DeployError(FailureMessage(c, deploy(c).error, stringify))] else [];
      here + FailedMessages(deploy, stringify, changes[1..])
  }

  lemma {:induction false} PartitionSizes(outcomes: seq<Outcome>)
    ensures |ErrorsOf(outcomes)| + |AppliedOf(outcomes)| == |outcomes|
  {
    if |outcomes| > 0 {
      PartitionSizes(outcomes[1..]);
    }
  }

  lemma {:induction false} PartitionIsReference(changes: seq<Change>, deploy: Change -> Result<Change, Failure>, stringify: JsValue -> string)
    ensures var outcomes := Seqs.Map(c => Attempt(deploy, stringify, c), changes);
      AppliedOf(outcomes) == Succeeded(deploy, changes)
      && ErrorsOf(outcomes) == FailedMessages(deploy, stringify, changes)
  {
    if |changes| > 0 {
      var outcomes := Seqs.Map(c => Attempt(deploy, stringify, c), changes);
      assert outcomes[1..] == Seqs.Map(c => Attempt(deploy, stringify, c), changes[1..]);
      PartitionIsReference(changes[1..], deploy, stringify);
    }
  }

  /** Every change ends up in exactly one of the two lists: the applied
      changes are the ones whose deploy succeeded, as it left them, in
      order, and there is one error per failure, in order. */
  lemma DeployChangesSpec(changes: seq<Change>, deploy: Change -> Result<Change, Failure>, stringify: JsValue -> string)
    ensures var r := DeployChanges(changes, deploy, stringify);
      && |r.errors| + |r.appliedChanges| == |changes|
      && r.appliedChanges == Succeeded(deploy, changes)
      && r.errors == FailedMessages(deploy, stringify, changes)
  {
    PartitionSizes(Seqs.Map(c => Attempt(deploy, stringify, c), changes));
    PartitionIsReference(changes, deploy, stringify);
  }

  /** A change is applied exactly when it is what the deploy of one of the
      input changes returned. */
  lemma {:induction false} SucceededMembers(deploy: Change -> Result<Change, Failure>, changes: seq<Change>, d: Change)
    ensures d in Succeeded(deploy, changes) <==> exists c :: c in changes && deploy(c) == Ok(d)
  {
    if |changes| > 0 {
      SucceededMembers(deploy, changes[1..], d);
      assert changes == [changes[0]] + changes[1..];
      assert forall c :: c in changes <==> c == changes[0] || c in changes[1..];
    }
  }

  /** `e`'s message starts with the prefix naming the failed change `c`. */
  predicate ReportsFailureOf(deploy: Change -> Result<Change, Failure>, c: Change, e: DeployError) {
    deploy(c).Err? && |Prefix(c, deploy(c).error)| <= |e.message|
    && e.message[..|Prefix(c, deploy(c).error)|] == Prefix(c, deploy(c).error)
  }

  /** Every error message starts with the prefix naming a failed change. */
  lemma {:induction false} FailedMessagesPrefix(deploy: Change -> Result<Change, Failure>, stringify: JsValue -> string, changes: seq<Change>)
    ensures forall e :: e in FailedMessages(deploy, stringify, changes) ==>
      exists c :: c in changes && ReportsFailureOf(deploy, c, e)
  {
    if |changes| > 0 {
      FailedMessagesPrefix(deploy, stringify, changes[1..]);
      var c := changes[0];
      if deploy(c).Err? {
        FailureMessageSpec(c, deploy(c).error, stringify);
      }
      forall e | e in FailedMessages(deploy, stringify, changes)
        ensures exists c :: c in changes && ReportsFailureOf(deploy, c, e)
      {
        if e !in FailedMessages(deploy, stringify, changes[1..]) {
          assert c in changes;
        } else {
          var c' :| c' in changes[1..] && ReportsFailureOf(deploy, c', e);
          assert c' in changes;
        }
      }
    }
  }

  /** The deploy function the adapter builds on `defaultDeployChange`:
      `fails` says which changes the endpoint call throws for; any other
      instance change comes back with the service id written into it. A
      change that is not of an instance is not deployed and comes back as
      it is. */
  function DefaultDeploy(deployCall: Change -> JsValue, fails: Change -> Option<Failure>, configuredField: Option<string>): Change -> Result<Change, Failure> {
    c => if fails(c).Some? then Err(fails(c).value)
         else if IsInstanceChange(c) then Ok(DefaultDeployChange(c, deployCall, configuredField).1)
         else Ok(c)
  }

  /** An added instance whose deploy response carries the service id is
      reported among the applied changes with that id in its value, the
      other values as they were. */
  lemma AddedIdReachesResult(changes: seq<Change>, deployCall: Change -> JsValue, fails: Change -> Option<Failure>,
                             configuredField: Option<string>, stringify: JsValue -> string, c: Change)
    requires c in changes && c.Addition? && c.after.Instance? && fails(c).None?
    requires deployCall(c).Obj? && Get(deployCall(c).fields, ServiceIdField(configuredField)) != Undefined
    ensures var field := ServiceIdField(configuredField);
      exists d :: d in DeployChanges(changes, DefaultDeploy(deployCall, fails, configuredField), stringify).appliedChanges
        && d.Addition? && d.after.Instance? && d.after.id == c.after.id
        && field in d.after.value && d.after.value[field] == deployCall(c).fields[field]
        && forall k :: k in c.after.value && k != field ==> k in d.after.value && d.after.value[k] == c.after.value[k]
  {
    var deploy := DefaultDeploy(deployCall, fails, configuredField);
    var d := WriteBackServiceId(c, deployCall(c), configuredField);
    assert deploy(c) == Ok(d);
    WriteBackSpec(c, deployCall(c), configuredField);
    SucceededMembers(deploy, changes, d);
    DeployChangesSpec(changes, deploy, stringify);
  }
}
