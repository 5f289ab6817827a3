/**
 * The stroke animation of a mark as a step counter. Drawing an X takes the
 * steps 0 to 10 and drawing an O the steps 0 to 16; every step before the
 * last schedules the next one, and only the last clears the animation flag and
 * hands over to the move evaluation.
 */
module Animation {
  import opened Rules

  /** The last step of the animation of player p's mark (main.py:159, 202). */
  function MaxSteps(p: Player): int {
    if p == X then 10 else 16
  }

  /** One scheduled animation call: the mark drawn, its cell and its step. */
  datatype Frame = Frame(mark: Player, idx: int, step: int)

  /** A step that has reached the last step finishes instead of rescheduling. */
  predicate IsFinal(f: Frame) {
    !(f.step < MaxSteps(f.mark))
  }

  /** The call a non-final step schedules. */
  function Next(f: Frame): Frame
    requires !IsFinal(f)
  {
    f.(step := f.step + 1)
  }

  /** The calls that run, in order, once call f has been scheduled. */
  function Run(f: Frame): seq<Frame>
    decreases MaxSteps(f.mark) - f.step
  {
    if IsFinal(f) then [f] else [f] + Run(Next(f))
  }

  /** The number of calls in s that finish the animation. */
  function Completions(s: seq<Frame>): nat {
    if s == [] then 0 else (if IsFinal(s[0]) then 1 else 0) + Completions(s[1..])
  }

  /**
   * From a step within range, the chain runs every later step once, in
   * increasing order, and only its last call finishes.
   */
  lemma {:induction false} RunShape(f: Frame)
    requires 0 <= f.step <= MaxSteps(f.mark)
    ensures |Run(f)| == MaxSteps(f.mark) - f.step + 1
    ensures forall k :: 0 <= k < |Run(f)| ==> Run(f)[k] == f.(step := f.step + k)
    ensures forall k :: 0 <= k < |Run(f)| ==> (IsFinal(Run(f)[k]) <==> k == |Run(f)| - 1)
    ensures Completions(Run(f)) == 1
    decreases MaxSteps(f.mark) - f.step
  {
    if !IsFinal(f) {
      var g := Next(f);
      RunShape(g);
      assert Run(f) == [f] + Run(g);
      assert Run(f)[1..] == Run(g);
      forall k | 0 < k < |Run(f)|
        ensures Run(f)[k] == f.(step := f.step + k)
      {
        assert Run(f)[k] == Run(g)[k - 1];
      }
    }
  }

  /**
   * The animation a move starts at step 0 makes MaxSteps + 1 calls, ends at
   * step MaxSteps, and finishes (clearing the flag and evaluating the move)
   * exactly once, at that last call.
   */
  lemma MoveAnimation(p: Player, idx: int)
    ensures |Run(Frame(p, idx, 0))| == MaxSteps(p) + 1
    ensures Run(Frame(p, idx, 0))[MaxSteps(p)] == Frame(p, idx, MaxSteps(p))
    ensures Completions(Run(Frame(p, idx, 0))) == 1
    ensures forall k :: 0 <= k < MaxSteps(p) ==> !IsFinal(Run(Frame(p, idx, 0))[k])
  {
    RunShape(Frame(p, idx, 0));
  }

  /** The call at step 0 is followed by the chain from step 1. */
  lemma StartChain(p: Player, idx: int)
    ensures Run(Frame(p, idx, 0)) == [Frame(p, idx, 0)] + Run(Frame(p, idx, 1))
  {
  }
}
