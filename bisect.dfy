/** AssertionDefender.NBisect: split a claim into contiguous sub-claims by re-executing
    the machine, each piece starting where the previous one stopped. */
module Bisect {
  import opened GoInts
  import opened Defender
  import opened Slicing

  /** The three variables the NBisect loop carries from one iteration to the next. */
  datatype Bisection<A, P, V, M> =
    Bisection(machine: M, precondition: P, defenders: seq<AssertionDefender<A, P, V, M>>)

  /** One iteration of the loop: run `stepCount` steps from the current machine under the
      current precondition, keep the reported defender, derive the next precondition from
      its stub, and move on from the state the run left behind. */
  ghost function Advance<M, A, S, P, B, T, V>(env: Env<M, A, S, P, B, T, V>, cur: Bisection<A, P, V, M>,
                                              inbox: V, stepCount: uint32): (next: Bisection<A, P, V, M>)
    ensures |next.defenders| == |cur.defenders| + 1
    ensures next.defenders[..|cur.defenders|] == cur.defenders
  {
    var run := env.execute(cur.machine, Int32(stepCount), env.beforeBalance(cur.precondition),
                           env.timeBounds(cur.precondition), inbox);
    Bisection(run.0, env.generatePostcondition(env.stub(run.1.GetAssertion()), cur.precondition),
              cur.defenders + [run.1])
  }

  /** The loop after it has handled the pieces `sizes`, in order, from `start` and `pre`. */
  ghost function BisectFold<M, A, S, P, B, T, V>(env: Env<M, A, S, P, B, T, V>, start: M, pre: P,
                                                 inbox: V, sizes: seq<uint32>): (c: Bisection<A, P, V, M>)
    ensures |c.defenders| == |sizes|
    decreases |sizes|
  {
    if sizes == [] then Bisection(start, pre, [])
    else Advance(env, BisectFold(env, start, pre, inbox, sizes[..|sizes| - 1]), inbox, sizes[|sizes| - 1])
  }

  /** Handling more pieces only appends children: the first k never change. */
  lemma {:induction false} BisectFoldPrefix<M, A, S, P, B, T, V>(env: Env<M, A, S, P, B, T, V>, start: M,
                                                                pre: P, inbox: V, sizes: seq<uint32>, k: nat)
    requires k <= |sizes|
    ensures BisectFold(env, start, pre, inbox, sizes[..k]).defenders
         == BisectFold(env, start, pre, inbox, sizes).defenders[..k]
    decreases |sizes|
  {
    if k < |sizes| {
      var init := sizes[..|sizes| - 1];
      assert init[..k] == sizes[..k];
      BisectFoldPrefix(env, start, pre, inbox, init, k);
    } else {
      assert sizes[..k] == sizes;
    }
  }

  /** Child i is what the machine reports when it runs piece i from the state, and under the
      precondition, that the first i pieces led to; the next piece then starts from the
      state that run left and from the postcondition of child i's stub. Every child sees
      the same inbox. */
  lemma BisectChild<M, A, S, P, B, T, V>(env: Env<M, A, S, P, B, T, V>, start: M, pre: P, inbox: V,
                                         sizes: seq<uint32>, i: nat)
    requires i < |sizes|
    ensures var before := BisectFold(env, start, pre, inbox, sizes[..i]);
            var run := env.execute(before.machine, Int32(sizes[i]), env.beforeBalance(before.precondition),
                                   env.timeBounds(before.precondition), inbox);
            BisectFold(env, start, pre, inbox, sizes).defenders[i] == run.1 &&
            BisectFold(env, start, pre, inbox, sizes[..i + 1]).machine == run.0 &&
            BisectFold(env, start, pre, inbox, sizes[..i + 1]).precondition
              == env.generatePostcondition(env.stub(run.1.GetAssertion()), before.precondition)
  {
    var s := sizes[..i + 1];
    assert s[..|s| - 1] == sizes[..i];
    BisectFoldPrefix(env, start, pre, inbox, sizes, i + 1);
  }

  /** The chain starts from the defender's own snapshot and precondition. */
  lemma BisectStart<M, A, S, P, B, T, V>(env: Env<M, A, S, P, B, T, V>, start: M, pre: P, inbox: V,
                                         sizes: seq<uint32>)
    ensures BisectFold(env, start, pre, inbox, sizes[..0]) == Bisection(start, pre, [])
  {
    assert sizes[..0] == [];
  }

  /** NBisect. When there are fewer steps than slices the slice count drops to the step
      count. Go divides by the slice count, so zero slices, or zero steps (which clamps the
      slice count to zero), never reach the loop. */
  method NBisect<M, A, S, P, B, T, V>(env: Env<M, A, S, P, B, T, V>, ad: AssertionDefender<A, P, V, M>,
                                      slices: uint32)
    returns (defenders: seq<AssertionDefender<A, P, V, M>>)
    requires NumSteps(env, ad) >= 1 && slices >= 1
    ensures |defenders| == ClampSlices(NumSteps(env, ad), slices)
    ensures defenders == BisectFold(env, ad.initState, ad.precondition, ad.beforeInbox,
                                    SliceSizes(NumSteps(env, ad), ClampSlices(NumSteps(env, ad), slices))).defenders
  {
    var nsteps := NumSteps(env, ad);
    var parts := slices;
    if nsteps < parts {
      parts := nsteps;
    }
    var sliceSize := nsteps / parts;
    ghost var sizes := SliceSizes(nsteps, parts);
    defenders := [];
    var machine := ad.initState;
    var precondition := ad.precondition;
    var i: uint32 := 0;
    SliceFits(nsteps, parts);
    while i < parts
      invariant i <= parts
      invariant Bisection(machine, precondition, defenders)
             == BisectFold(env, ad.initState, ad.precondition, ad.beforeInbox, sizes[..i])
    {
      var runState := machine;
      var stepCount := sliceSize;
      if i < nsteps % parts {
        stepCount := stepCount + 1;
      }
      var run := env.execute(runState, Int32(stepCount), env.beforeBalance(precondition),
                             env.timeBounds(precondition), ad.beforeInbox);
      runState := run.0;
      var defender := run.1;
      defenders := defenders + [defender];
      precondition := env.generatePostcondition(env.stub(defender.GetAssertion()), precondition);
      machine := runState;
      assert sizes[..i + 1][..i] == sizes[..i];
      i := i + 1;
    }
    assert sizes[..parts] == sizes;
  }
}
