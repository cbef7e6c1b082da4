/**
 * The stack of game states (src/state_stack.rs): `push` puts a state on top,
 * `back` drops the top and returns the state now on top.
 */
module StateStacks {
  import opened Ecs

  /** The stack after pushing `x`. */
  function Pushed(s: seq<GameState>, x: GameState): (r: seq<GameState>)
    ensures |r| == |s| + 1 && r[|s|] == x
    ensures forall i :: 0 <= i < |s| ==> r[i] == s[i]
  {
    s + [x]
  }

  /** The stack after dropping its top. */
  function Popped(s: seq<GameState>): (r: seq<GameState>)
    requires |s| >= 1
    ensures |r| == |s| - 1
    ensures forall i :: 0 <= i < |r| ==> r[i] == s[i]
  {
    s[..|s| - 1]
  }

  function Top(s: seq<GameState>): GameState
    requires |s| >= 1
  {
    s[|s| - 1]
  }

  /** `back` after `push` restores the stack and reports the old top. */
  lemma PushThenBack(s: seq<GameState>, x: GameState)
    requires |s| >= 1
    ensures |Pushed(s, x)| >= 2
    ensures Popped(Pushed(s, x)) == s
    ensures Top(Popped(Pushed(s, x))) == Top(s)
  {
  }

  /** `push` then `back` on any stack: the pair is a no-op, whatever was pushed. */
  lemma {:induction false} PushesThenBacks(s: seq<GameState>, xs: seq<GameState>)
    ensures |PushAll(s, xs)| == |s| + |xs|
    ensures PopN(PushAll(s, xs), |xs|) == s
    decreases |xs|
  {
    if xs != [] {
      var n := |xs| - 1;
      PushesThenBacks(s, xs[..n]);
      assert PushAll(s, xs) == Pushed(PushAll(s, xs[..n]), xs[n]);
      assert Popped(PushAll(s, xs)) == PushAll(s, xs[..n]);
    }
  }

  /** The stack after pushing every state of `xs` in order. */
  function PushAll(s: seq<GameState>, xs: seq<GameState>): seq<GameState>
    decreases |xs|
  {
    if xs == [] then s else Pushed(PushAll(s, xs[..|xs| - 1]), xs[|xs| - 1])
  }

  /** The stack after `n` drops of its top. */
  function PopN(s: seq<GameState>, n: nat): seq<GameState>
    requires n <= |s|
    decreases n
  {
    if n == 0 then s else PopN(Popped(s), n - 1)
  }

  /** The `StateStack` resource. */
  class StateStack {
    var stack: seq<GameState>

    /** The resource starts empty. */
    constructor ()
      ensures stack == []
    {
      stack := [];
    }

    /** `push`: the input becomes the new top and is returned. */
    method Push(input: GameState) returns (r: GameState)
      modifies this
      ensures stack == Pushed(old(stack), input)
      ensures r == input
    {
      stack := stack + [input];
      r := input;
    }

    /**
     * `back`: drop the top and return the state below it. With fewer than two
     * states the source's `unwrap` panics.
     */
    method Back() returns (r: GameState)
      requires |stack| >= 2
      modifies this
      ensures stack == Popped(old(stack))
      ensures r == Top(stack)
    {
      stack := stack[..|stack| - 1];
      r := stack[|stack| - 1];
    }
  }
}
