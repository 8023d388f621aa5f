/** ChooseAssertionToChallenge: replay claimed segments against the real machine and
    report the first one whose replay disagrees with the claim. */
module Challenge {
  import opened GoInts
  import opened Defender
  import opened Bisect

  /** The Go function's (uint16, Machine, error) result: an index and the machine state
      to challenge from, or the "all segments in false Assertion are valid" error. */
  datatype ChallengeResult<M> = Found(index: uint16, machine: M) | AllSegmentsValid

  /** The machine run the chooser performs for one claimed segment. */
  ghost function Replay<M, A, S, P, B, T, V>(env: Env<M, A, S, P, B, T, V>, machine: M, claim: S,
                                             pre: P, inbox: V): (run: (M, AssertionDefender<A, P, V, M>))
  {
    env.execute(machine, Int32(env.stubNumSteps(claim)), env.beforeBalance(pre), env.timeBounds(pre), inbox)
  }

  /** The real machine state after the first k claimed segments have been replayed. */
  ghost function ReplayState<M, A, S, P, B, T, V>(env: Env<M, A, S, P, B, T, V>, machine: M,
                                                  assertions: seq<S>, preconditions: seq<P>, inbox: V,
                                                  k: nat): (m: M)
    requires k <= |assertions| <= |preconditions|
  {
    if k == 0 then machine
    else Replay(env, ReplayState(env, machine, assertions, preconditions, inbox, k - 1),
                assertions[k - 1], preconditions[k - 1], inbox).0
  }

  /** Segment k agrees with real execution: the stub of what the machine reports, run from
      the replayed state, equals the claimed stub. */
  ghost predicate SegmentMatches<M, A, S, P, B, T, V>(env: Env<M, A, S, P, B, T, V>, machine: M,
                                                      assertions: seq<S>, preconditions: seq<P>, inbox: V,
                                                      k: nat)
    requires k < |assertions| <= |preconditions|
  {
    var run := Replay(env, ReplayState(env, machine, assertions, preconditions, inbox, k),
                      assertions[k], preconditions[k], inbox);
    env.stubEquals(env.stub(run.1.GetAssertion()), assertions[k])
  }

  /** The chooser reports an error exactly when every segment agrees. Otherwise it reports
      the first segment that disagrees (its index as Go's uint16 keeps it), with the machine
      state from before that segment ran. Go reads preconditions[i] for each index the scan
      reaches and panics only if it reaches |preconditions|; the requires asks for at least
      as many preconditions as claims, so it also excludes inputs on which an earlier
      mismatch would return normally. */
  method ChooseAssertionToChallenge<M, A, S, P, B, T, V>(env: Env<M, A, S, P, B, T, V>, machine: M,
                                                         assertions: seq<S>, preconditions: seq<P>,
                                                         inbox: V)
    returns (r: ChallengeResult<M>)
    requires |preconditions| >= |assertions|
    ensures r.AllSegmentsValid? <==>
            forall j :: 0 <= j < |assertions| ==> SegmentMatches(env, machine, assertions, preconditions, inbox, j)
    ensures r.Found? ==>
            exists k :: 0 <= k < |assertions| && r.index == Uint16(k) &&
              r.machine == ReplayState(env, machine, assertions, preconditions, inbox, k) &&
              !SegmentMatches(env, machine, assertions, preconditions, inbox, k) &&
              forall j :: 0 <= j < k ==> SegmentMatches(env, machine, assertions, preconditions, inbox, j)
  {
    var current := machine;
    var i := 0;
    while i < |assertions|
      invariant i <= |assertions|
      invariant current == ReplayState(env, machine, assertions, preconditions, inbox, i)
      invariant forall j :: 0 <= j < i ==> SegmentMatches(env, machine, assertions, preconditions, inbox, j)
    {
      var newState := current;
      var run := env.execute(newState, Int32(env.stubNumSteps(assertions[i])),
                             env.beforeBalance(preconditions[i]), env.timeBounds(preconditions[i]), inbox);
      newState := run.0;
      var generatedAssertion := run.1.GetAssertion();
      if !env.stubEquals(env.stub(generatedAssertion), assertions[i]) {
        assert !SegmentMatches(env, machine, assertions, preconditions, inbox, i);
        r := Found(Uint16(i), current);
        return;
      }
      current := newState;
      i := i + 1;
    }
    r := AllSegmentsValid;
  }

  /** The stubs of a sequence of defenders, as a defender would send them. */
  ghost function ClaimedStubs<M, A, S, P, B, T, V>(env: Env<M, A, S, P, B, T, V>,
                                                   defenders: seq<AssertionDefender<A, P, V, M>>): (stubs: seq<S>)
    ensures |stubs| == |defenders|
  {
    seq(|defenders|, i requires 0 <= i < |defenders| => env.stub(defenders[i].GetAssertion()))
  }

  /** The precondition each piece of a bisection ran under. */
  ghost function ChainPreconditions<M, A, S, P, B, T, V>(env: Env<M, A, S, P, B, T, V>, start: M, pre: P,
                                                         inbox: V, sizes: seq<uint32>): (pres: seq<P>)
    ensures |pres| == |sizes|
  {
    seq(|sizes|, i requires 0 <= i < |sizes| => BisectFold(env, start, pre, inbox, sizes[..i]).precondition)
  }

  /** Children that report the step count they were run for. */
  ghost predicate ReportsOwnSize<M, A, S, P, B, T, V>(env: Env<M, A, S, P, B, T, V>, start: M, pre: P,
                                                      inbox: V, sizes: seq<uint32>)
  {
    var c := BisectFold(env, start, pre, inbox, sizes);
    forall i :: 0 <= i < |sizes| ==> env.stubNumSteps(env.stub(c.defenders[i].GetAssertion())) == sizes[i]
  }

  /** Replaying an honest bisection walks through the same machine states it did. */
  lemma {:induction false} HonestReplayStates<M, A, S, P, B, T, V>(env: Env<M, A, S, P, B, T, V>, start: M,
                                                                  pre: P, inbox: V, sizes: seq<uint32>, k: nat)
    requires ReportsOwnSize(env, start, pre, inbox, sizes)
    requires k <= |sizes|
    ensures ReplayState(env, start, ClaimedStubs(env, BisectFold(env, start, pre, inbox, sizes).defenders),
                        ChainPreconditions(env, start, pre, inbox, sizes), inbox, k)
         == BisectFold(env, start, pre, inbox, sizes[..k]).machine
  {
    if k == 0 {
      BisectStart(env, start, pre, inbox, sizes);
    } else {
      HonestReplayStates(env, start, pre, inbox, sizes, k - 1);
      BisectChild(env, start, pre, inbox, sizes, k - 1);
    }
  }

  /** One segment of an honest bisection agrees with its claim. */
  lemma HonestSegmentMatches<M, A, S, P, B, T, V>(env: Env<M, A, S, P, B, T, V>, start: M, pre: P,
                                                  inbox: V, sizes: seq<uint32>, k: nat)
    requires forall s :: env.stubEquals(s, s)
    requires ReportsOwnSize(env, start, pre, inbox, sizes)
    requires k < |sizes|
    ensures SegmentMatches(env, start, ClaimedStubs(env, BisectFold(env, start, pre, inbox, sizes).defenders),
                           ChainPreconditions(env, start, pre, inbox, sizes), inbox, k)
  {
    var c := BisectFold(env, start, pre, inbox, sizes);
    var stubs := ClaimedStubs(env, c.defenders);
    var pres := ChainPreconditions(env, start, pre, inbox, sizes);
    var before := BisectFold(env, start, pre, inbox, sizes[..k]);
    HonestReplayStates(env, start, pre, inbox, sizes, k);
    BisectChild(env, start, pre, inbox, sizes, k);
    assert ReplayState(env, start, stubs, pres, inbox, k) == before.machine;
    assert pres[k] == before.precondition;
    assert env.stubNumSteps(stubs[k]) == sizes[k];
    assert Replay(env, before.machine, stubs[k], pres[k], inbox).1 == c.defenders[k];
    assert env.stubEquals(stubs[k], stubs[k]);
  }

  /** No false positive against an honest defender: when stub equality is reflexive and
      each child reports the step count it was run for, every segment of a bisection,
      replayed from the same snapshot, precondition chain and inbox, agrees with its claim,
      so ChooseAssertionToChallenge answers AllSegmentsValid. */
  lemma HonestBisectionMatches<M, A, S, P, B, T, V>(env: Env<M, A, S, P, B, T, V>, start: M, pre: P,
                                                    inbox: V, sizes: seq<uint32>)
    requires forall s :: env.stubEquals(s, s)
    requires ReportsOwnSize(env, start, pre, inbox, sizes)
    ensures forall k :: 0 <= k < |sizes| ==>
              SegmentMatches(env, start, ClaimedStubs(env, BisectFold(env, start, pre, inbox, sizes).defenders),
                             ChainPreconditions(env, start, pre, inbox, sizes), inbox, k)
  {
    forall k | 0 <= k < |sizes|
      ensures SegmentMatches(env, start, ClaimedStubs(env, BisectFold(env, start, pre, inbox, sizes).defenders),
                             ChainPreconditions(env, start, pre, inbox, sizes), inbox, k)
    {
      HonestSegmentMatches(env, start, pre, inbox, sizes, k);
    }
  }
}
