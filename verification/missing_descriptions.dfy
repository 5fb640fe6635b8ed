/** The Jira fetch filter that gives an empty description to the project
    role, field and field configuration item instances that have none. */
module MissingDescriptions {
  import opened Values
  import opened Elements
  import Seqs

  const RelevantTypes: seq<string> := ["ProjectRole", "Field", "FieldConfigurationItem"]

  predicate IsRelevantInstance(e: Element) { e.Instance? && e.id.typeName in RelevantTypes }

  predicate LacksDescription(e: Element) { e.Instance? && Get(e.value, "description") == Undefined }

  /** The instances the filter chain selects. */
  predicate Selected(e: Element) { IsRelevantInstance(e) && LacksDescription(e) }

  function WithEmptyDescription(e: Element): (r: Element)
    requires e.Instance?
    ensures r.Instance? && r.id == e.id && r.refType == e.refType && r.annotations == e.annotations
    ensures r.value == e.value["description" := Str("")]
  {
    e.(value := e.value["description" := Str("")])
  }

  function Fill(e: Element): Element {
    if Selected(e) then WithEmptyDescription(e) else e
  }

  /** `onFetch`: the selected instances are updated in place, every other
      element is left alone and the array keeps its order. */
  function OnFetch(elements: seq<Element>): (r: seq<Element>)
    ensures |r| == |elements|
    ensures forall i :: 0 <= i < |r| ==> r[i] == Fill(elements[i])
  {
    Seqs.Map(Fill, elements)
  }

  /** The chain of filters selects exactly the instances `Fill` changes. */
  lemma {:induction false} ChainSelects(elements: seq<Element>)
    ensures Seqs.Filter(LacksDescription, Seqs.Filter(IsRelevantInstance, Seqs.Filter(IsInstance, elements)))
      == Seqs.Filter(Selected, elements)
  {
    if |elements| > 0 {
      var e := elements[0];
      var rest := elements[1..];
      assert elements == [e] + rest;
      ChainSelects(rest);
      Seqs.FilterCons(IsInstance, e, rest);
      var instances := Seqs.Filter(IsInstance, rest);
      if IsInstance(e) {
        Seqs.FilterCons(IsRelevantInstance, e, instances);
        if IsRelevantInstance(e) {
          Seqs.FilterCons(LacksDescription, e, Seqs.Filter(IsRelevantInstance, instances));
        }
      }
    }
  }

  /** An element changes exactly when it is selected, and then only its
      description does, which becomes the empty string. */
  lemma FillChangesOnlySelected(e: Element)
    ensures Fill(e) != e <==> Selected(e)
    ensures Selected(e) ==> (Fill(e).value.Keys == e.value.Keys + {"description"}
      && Get(Fill(e).value, "description") == Str("")
      && forall k :: k in e.value && k != "description" ==> Fill(e).value[k] == e.value[k])
  {
    if Selected(e) {
      assert Get(Fill(e).value, "description") != Get(e.value, "description");
    }
  }

  /** After the filter every relevant instance has a description. */
  lemma AllRelevantDescribed(elements: seq<Element>)
    ensures forall e :: e in OnFetch(elements) && IsRelevantInstance(e) ==> Get(e.value, "description") != Undefined
  {
    var r := OnFetch(elements);
    forall e | e in r && IsRelevantInstance(e)
      ensures Get(e.value, "description") != Undefined
    {
      var i :| 0 <= i < |r| && r[i] == e;
      assert e == Fill(elements[i]);
    }
  }

  /** Running the filter again changes nothing. */
  lemma OnFetchIdempotent(elements: seq<Element>)
    ensures OnFetch(OnFetch(elements)) == OnFetch(elements)
  {
    var r := OnFetch(elements);
    forall i | 0 <= i < |r|
      ensures Fill(r[i]) == r[i]
    {
      FillChangesOnlySelected(elements[i]);
    }
    assert OnFetch(r) == r;
  }
}
