/** A Rust `Vec` used as a stack: its last element is the top. Both parsers
    keep their tokens this way, the next token last. */
module Stacks {

  /** A stack read from the top down. */
  function Reverse<T>(stack: seq<T>): (ts: seq<T>)
    ensures |ts| == |stack|
    ensures forall i :: 0 <= i < |stack| ==> ts[i] == stack[|stack| - 1 - i]
  {
    if stack == [] then [] else [stack[|stack| - 1]] + Reverse(stack[..|stack| - 1])
  }

  /** Popping the top of a stack takes the first element of its reading. */
  lemma PopTop<T>(stack: seq<T>)
    requires stack != []
    ensures Reverse(stack) == [stack[|stack| - 1]] + Reverse(stack[..|stack| - 1])
  {
  }

  /** Reading a stack and pushing the reading again gives the stack back. */
  lemma {:induction false} ReverseReverse<T>(ts: seq<T>)
    ensures Reverse(Reverse(ts)) == ts
  {
  }
}
