/** The AssertionDefender of machine/defender.go and the collaborators it relies on.

    The virtual machine and the protocol types live outside this file, so they are type
    parameters here:
      M  the Machine (a value: Clone is the identity),
      A  protocol.Assertion,       S  protocol.AssertionStub,
      P  protocol.Precondition,    B  its BeforeBalance,     T  its TimeBounds,
      V  value.Value (the inbox).
    The operations the defender calls on them are the fields of an Env. */
module Defender {
  import opened GoInts

  /** The four fields of the Go struct: the claim, the precondition it ran under, the
      inbox it saw and the machine state from before it ran. */
  datatype AssertionDefender<A, P, V, M> =
    AssertionDefender(assertion: A, precondition: P, beforeInbox: V, initState: M)
  {
    function GetAssertion(): A { assertion }
    function GetPrecondition(): P { precondition }
    function GetInbox(): V { beforeInbox }
    function GetMachineState(): M { initState }
  }

  /** What the defender calls outside its own file, each a deterministic function.
      `execute` is Machine.ExecuteAssertion: it returns the state the receiver is left in
      together with the defender it reports (its error result is discarded by every caller
      in the file and is not modelled). */
  datatype Env<!M, !A, !S, !P, !B, !T, !V> = Env(
    execute: (M, int32, B, T, V) -> (M, AssertionDefender<A, P, V, M>),
    numSteps: A -> uint32,
    stub: A -> S,
    stubNumSteps: S -> uint32,
    stubEquals: (S, S) -> bool,
    generatePostcondition: (S, P) -> P,
    beforeBalance: P -> B,
    timeBounds: P -> T)

  /** NewAssertionDefender: stores its arguments, and a clone of the machine, which on
      values is the machine itself. Every accessor gives back what was passed in. */
  function NewAssertionDefender<A, P, V, M>(assertion: A, precondition: P, beforeInbox: V, initState: M)
    : (ad: AssertionDefender<A, P, V, M>)
    ensures ad.GetAssertion() == assertion && ad.GetPrecondition() == precondition
    ensures ad.GetInbox() == beforeInbox && ad.GetMachineState() == initState
  {
    AssertionDefender(assertion, precondition, beforeInbox, initState)
  }

  /** The step count of the defended claim. */
  function NumSteps<M, A, S, P, B, T, V>(env: Env<M, A, S, P, B, T, V>, ad: AssertionDefender<A, P, V, M>): (n: uint32)
  {
    env.numSteps(ad.GetAssertion())
  }

  /** The accessors lose nothing: a defender is rebuilt from what they return. */
  lemma DefenderRoundTrip<A, P, V, M>(ad: AssertionDefender<A, P, V, M>)
    ensures NewAssertionDefender(ad.GetAssertion(), ad.GetPrecondition(), ad.GetInbox(), ad.GetMachineState()) == ad
  {
  }
}
