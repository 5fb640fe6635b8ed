/** The Zendesk fetch filter that drops the instances of the old definition
    types from the fetched elements. */
module RemoveDefinitionInstances {
  import opened Elements
  import Seqs

  const DefinitionTypeNames: seq<string> :=
    ["macro_definition", "macros_actions", "trigger_definition", "sla_policy_definition", "routing_attribute_definition"]

  predicate IsDefinitionInstance(e: Element) {
    e.Instance? && e.id.typeName in DefinitionTypeNames
  }

  predicate Keep(e: Element) { !IsDefinitionInstance(e) }

  /** `onFetch`: `_.remove` takes the matching elements out of the array in
      place, keeping the others in order. */
  function OnFetch(elements: seq<Element>): (r: seq<Element>)
    ensures forall e :: e in r ==> !IsDefinitionInstance(e)
    ensures forall e :: e in elements && !IsDefinitionInstance(e) ==> e in r
    ensures forall e :: e in r ==> e in elements
  {
    Seqs.Filter(Keep, elements)
  }

  /** The elements that stay and the ones removed add up to the input. */
  lemma RemovedCount(elements: seq<Element>)
    ensures |OnFetch(elements)| + |Seqs.Filter(IsDefinitionInstance, elements)| == |elements|
  {
    Seqs.FilterPartition(IsDefinitionInstance, elements);
    Seqs.FilterSame(x => !IsDefinitionInstance(x), Keep, elements);
  }

  /** Running the filter again changes nothing. */
  lemma OnFetchIdempotent(elements: seq<Element>)
    ensures OnFetch(OnFetch(elements)) == OnFetch(elements)
  {
    Seqs.FilterIdempotent(Keep, elements);
  }

  /** A fetch without definition instances is left as it is. */
  lemma NothingToRemove(elements: seq<Element>)
    requires forall e :: e in elements ==> !IsDefinitionInstance(e)
    ensures OnFetch(elements) == elements
  {
    Seqs.FilterAll(Keep, elements);
  }

  /** Filtering two parts of the fetch filters the whole. */
  lemma OnFetchConcat(a: seq<Element>, b: seq<Element>)
    ensures OnFetch(a + b) == OnFetch(a) + OnFetch(b)
  {
    Seqs.FilterConcat(Keep, a, b);
  }
}
