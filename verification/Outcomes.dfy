/** Facts about collecting a sequence of outcomes, shared by the results
    about lists, dicts and structs. */
module Outcomes {
  import opened Wrappers
  import opened Validation

  lemma {:induction false} CollectFirstClean<T>(outcomes: seq<Outcome<T>>, n: nat)
    requires n <= |outcomes|
    ensures CollectFirst(outcomes, n).issues == [] <==> forall i | 0 <= i < n :: outcomes[i].issues == []
  {
    if n > 0 {
      CollectFirstClean(outcomes, n - 1);
    }
  }

  /** Collecting reports nothing exactly when no part does. */
  lemma CollectClean<T>(outcomes: seq<Outcome<T>>)
    ensures Collect(outcomes).issues == [] <==> forall i | 0 <= i < |outcomes| :: outcomes[i].issues == []
  {
    CollectFirstClean(outcomes, |outcomes|);
  }

  lemma {:induction false} CollectFirstCount<T>(outcomes: seq<Outcome<T>>, n: nat)
    requires n <= |outcomes|
    ensures |CollectFirst(outcomes, n).values| <= n
    ensures |CollectFirst(outcomes, n).values| == n <==> forall i | 0 <= i < n :: outcomes[i].value.Some?
    ensures |CollectFirst(outcomes, n).values| == n ==>
              forall i | 0 <= i < n :: CollectFirst(outcomes, n).values[i] == outcomes[i].value.value
  {
    if n > 0 {
      CollectFirstCount(outcomes, n - 1);
    }
  }

  /** No value is dropped exactly when every part has one; then they line up. */
  lemma CollectCount<T>(outcomes: seq<Outcome<T>>)
    ensures |Collect(outcomes).values| <= |outcomes|
    ensures |Collect(outcomes).values| == |outcomes|
       <==> forall i | 0 <= i < |outcomes| :: outcomes[i].value.Some?
    ensures |Collect(outcomes).values| == |outcomes| ==>
              forall i | 0 <= i < |outcomes| :: Collect(outcomes).values[i] == outcomes[i].value.value
  {
    CollectFirstCount(outcomes, |outcomes|);
  }

  lemma {:induction false} CollectFirstOrigin<T>(outcomes: seq<Outcome<T>>, n: nat, issue: Issue) returns (i: nat)
    requires n <= |outcomes| && issue in CollectFirst(outcomes, n).issues
    ensures i < n && issue in outcomes[i].issues
  {
    if issue in outcomes[n - 1].issues {
      i := n - 1;
    } else {
      i := CollectFirstOrigin(outcomes, n - 1, issue);
    }
  }

  /** Every collected issue comes from some part. */
  lemma CollectOrigin<T>(outcomes: seq<Outcome<T>>, issue: Issue) returns (i: nat)
    requires issue in Collect(outcomes).issues
    ensures i < |outcomes| && issue in outcomes[i].issues
  {
    i := CollectFirstOrigin(outcomes, |outcomes|, issue);
  }

  lemma {:induction false} CollectFirstValueOrigin<T>(outcomes: seq<Outcome<T>>, n: nat, k: nat) returns (i: nat)
    requires n <= |outcomes| && k < |CollectFirst(outcomes, n).values|
    ensures i < n && outcomes[i].value == Some(CollectFirst(outcomes, n).values[k])
  {
    if k < |CollectFirst(outcomes, n - 1).values| {
      i := CollectFirstValueOrigin(outcomes, n - 1, k);
    } else {
      i := n - 1;
    }
  }

  /** Every collected value comes from some part. */
  lemma CollectValueOrigin<T>(outcomes: seq<Outcome<T>>, k: nat) returns (i: nat)
    requires k < |Collect(outcomes).values|
    ensures i < |outcomes| && outcomes[i].value == Some(Collect(outcomes).values[k])
  {
    i := CollectFirstValueOrigin(outcomes, |outcomes|, k);
  }

  lemma {:induction false} CollectAccepted<T>(outcomes: seq<Outcome<T>>, values: seq<T>, n: nat)
    requires |outcomes| == |values| && n <= |values|
    requires forall i | 0 <= i < |values| :: outcomes[i] == Accept(values[i])
    ensures CollectFirst(outcomes, n) == Collected(values[..n], [])
  {
    if n > 0 {
      CollectAccepted(outcomes, values, n - 1);
      assert values[..n] == values[..n - 1] + [values[n - 1]];
    }
  }
}
