/**
 * The shutdown executor of internal/utils/executor: an ordered list of
 * tagged actions run one after another, either stopping at the first error
 * or reporting every error to a callback.
 */
module Executor {
  import opened Wrappers

  /** What running an action returns: `None` for nil, `Some(text)` for an error. */
  type Outcome = Option<string>

  /**
   * `fnAction`: a tag and the function it runs. The function is named by a
   * token; what it returns when run is supplied to `Execute`.
   */
  datatype Action = FnAction(tag: string, fn: nat)

  /** The position of the first failing outcome, or the length when none fails. */
  function FirstFailure(outcomes: seq<Outcome>): (k: nat)
    ensures k <= |outcomes|
    ensures forall i | 0 <= i < k :: outcomes[i].None?
    ensures k < |outcomes| ==> outcomes[k].Some?
  {
    if outcomes == [] then 0
    else if outcomes[0].Some? then 0
    else 1 + FirstFailure(outcomes[1..])
  }

  /** The callback invocations for the first `n` actions: each failing action with its error, in order. */
  function Failures(actions: seq<Action>, outcomes: seq<Outcome>, n: nat): seq<(Action, string)>
    requires n <= |actions| == |outcomes|
  {
    if n == 0 then []
    else Failures(actions, outcomes, n - 1)
         + (if outcomes[n - 1].Some? then [(actions[n - 1], outcomes[n - 1].value)] else [])
  }

  /**
   * The callback sees exactly the failing actions, each once, in list order:
   * an action appears in it precisely when its outcome is an error.
   */
  lemma {:induction false} FailuresAreTheErrors(actions: seq<Action>, outcomes: seq<Outcome>, n: nat)
    requires n <= |actions| == |outcomes|
    ensures |Failures(actions, outcomes, n)| <= n
    ensures forall e | e in Failures(actions, outcomes, n) ::
              exists i | 0 <= i < n :: outcomes[i].Some? && e == (actions[i], outcomes[i].value)
    ensures forall i | 0 <= i < n && outcomes[i].Some? ::
              (actions[i], outcomes[i].value) in Failures(actions, outcomes, n)
  {
    if n > 0 {
      FailuresAreTheErrors(actions, outcomes, n - 1);
    }
  }

  /** No callback is invoked exactly when no action fails. */
  lemma {:induction false} NoFailuresIffAllSucceed(actions: seq<Action>, outcomes: seq<Outcome>, n: nat)
    requires n <= |actions| == |outcomes|
    ensures Failures(actions, outcomes, n) == [] <==> forall i | 0 <= i < n :: outcomes[i].None?
  {
    if n > 0 {
      NoFailuresIffAllSucceed(actions, outcomes, n - 1);
    }
  }

  class Executor {
    var actionList: seq<Action>

    constructor ()
      ensures actionList == []
    {
      actionList := [];
    }

    /** `Add`: the action goes to the end of the list. */
    method Add(a: Action)
      modifies this
      ensures actionList == old(actionList) + [a]
    {
      actionList := actionList + [a];
    }

    method AddFuncWithTag(tag: string, fn: nat)
      modifies this
      ensures actionList == old(actionList) + [FnAction(tag, fn)]
    {
      Add(FnAction(tag, fn));
    }

    /** `AddFunc`: an untagged function action. */
    method AddFunc(fn: nat)
      modifies this
      ensures actionList == old(actionList) + [FnAction("", fn)]
    {
      AddFuncWithTag("", fn);
    }

    /**
     * `Execute(stopOnErr, errCallback)`. `outcomes[i]` is what the i-th action
     * returns when run; `ran` is how many actions were run, in list order, and
     * `calls` the callback invocations in the order they happen.
     */
    method Execute(stopOnErr: bool, hasCallback: bool, outcomes: seq<Outcome>)
      returns (err: Outcome, ran: nat, calls: seq<(Action, string)>)
      requires |outcomes| == |actionList|
      ensures var k := FirstFailure(outcomes);
              stopOnErr ==> ran == (if k < |outcomes| then k + 1 else k)
                            && err == (if k < |outcomes| then outcomes[k] else None)
                            && calls == []
      ensures !stopOnErr ==> ran == |actionList| && err == None
                             && calls == (if hasCallback then Failures(actionList, outcomes, |actionList|) else [])
    {
      ran, calls := 0, [];
      while ran < |actionList|
        invariant 0 <= ran <= |actionList|
        invariant stopOnErr ==> calls == [] && forall i | 0 <= i < ran :: outcomes[i].None?
        invariant !stopOnErr ==> calls == (if hasCallback then Failures(actionList, outcomes, ran) else [])
      {
        var result := outcomes[ran];
        ran := ran + 1;
        if result.Some? {
          if stopOnErr {
            FirstFailureIs(outcomes, ran - 1);
            return result, ran, calls;
          }
          if hasCallback {
            calls := calls + [(actionList[ran - 1], result.value)];
          }
        }
      }
      if stopOnErr {
        FirstFailureIs(outcomes, |outcomes|);
      }
      err := None;
    }
  }

  /** A position whose predecessors all succeed and which fails (or ends the list) is the first failure. */
  lemma {:induction false} FirstFailureIs(outcomes: seq<Outcome>, k: nat)
    requires k <= |outcomes|
    requires forall i | 0 <= i < k :: outcomes[i].None?
    requires k < |outcomes| ==> outcomes[k].Some?
    ensures FirstFailure(outcomes) == k
  {
    if k > 0 {
      FirstFailureIs(outcomes[1..], k - 1);
    }
  }
}
