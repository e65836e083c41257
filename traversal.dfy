/**
 * What object, array, tuple and record have in common: their children are checked
 * one at a time, in order, and the first child that does not succeed ends the check,
 * its failure labelled with the child's path component (first failure wins, no
 * collecting). The definition peels off the last child, as each of the loops extends
 * its result one child at a time.
 */
module Traversal {
  import opened JsValues
  import opened InvalidValues
  import opened Types

  /** One child check: the path component a failure gets, the child's type, and the
      input handed to it. */
  datatype Child = Child(component: string, childType: Type, input: Value)
  {
    function Outcome(): Result<Value>
    {
      childType.transformValue(input)
    }
  }

  /** The outcome of checking `children` in order: all outputs, or the first child's
      result that is not an output, a failure with the child's component prepended. */
  function Visit(children: seq<Child>): (r: Result<seq<Value>>)
    ensures r.Ok? ==> |r.value| == |children|
    decreases |children|
  {
    if children == [] then Ok([])
    else
      var n := |children| - 1;
      var before := Visit(children[..n]);
      if !before.Ok? then before
      else
        var res := children[n].Outcome();
        if res.Ok? then Ok(before.value + [res.value])
        else res.WithPathComponent(children[n].component).Propagate<seq<Value>>()
  }

  /** Once a prefix has failed, the children after it do not matter. */
  lemma {:induction false} VisitPrefixFinal(children: seq<Child>, k: nat)
    requires k <= |children|
    requires !Visit(children[..k]).Ok?
    ensures Visit(children) == Visit(children[..k])
    decreases |children|
  {
    if k < |children| {
      var n := |children| - 1;
      assert children[..n][..k] == children[..k];
      VisitPrefixFinal(children[..n], k);
    } else {
      assert children[..k] == children;
    }
  }

  /** All children succeed exactly when the traversal does, and then the outputs are the
      children's outputs, position by position. */
  lemma {:induction false} VisitSucceeds(children: seq<Child>)
    ensures Visit(children).Ok? <==> forall i :: 0 <= i < |children| ==> children[i].Outcome().Ok?
    ensures Visit(children).Ok? ==>
      forall i :: 0 <= i < |children| ==> Visit(children).value[i] == children[i].Outcome().value
    decreases |children|
  {
    if children != [] {
      var n := |children| - 1;
      VisitSucceeds(children[..n]);
      assert forall i :: 0 <= i < n ==> children[..n][i] == children[i];
    }
  }

  /** When each child yields the output given for it, the traversal yields exactly those
      outputs. */
  lemma {:induction false} VisitAllOk(children: seq<Child>, outputs: seq<Value>)
    requires |outputs| == |children|
    requires forall i :: 0 <= i < |children| ==> children[i].Outcome() == Ok(outputs[i])
    ensures Visit(children) == Ok(outputs)
    decreases |children|
  {
    if children != [] {
      var n := |children| - 1;
      VisitAllOk(children[..n], outputs[..n]);
      assert outputs[..n] + [outputs[n]] == outputs;
    }
  }

  /** The first child that does not succeed decides the outcome: a failure gets the
      child's component in front of its path, an exception passes unchanged. */
  lemma {:induction false} VisitFirstFailure(children: seq<Child>, i: nat)
    requires i < |children|
    requires forall j :: 0 <= j < i ==> children[j].Outcome().Ok?
    requires !children[i].Outcome().Ok?
    ensures Visit(children) == children[i].Outcome().WithPathComponent(children[i].component).Propagate<seq<Value>>()
  {
    VisitSucceeds(children[..i]);
    assert children[..i + 1][..i] == children[..i];
    VisitPrefixFinal(children, i + 1);
  }
}
