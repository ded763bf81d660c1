/** `Stack<T>`: a last-in first-out stack over a JavaScript array. */
module Stacks {
  import opened Wrappers

  class Stack<T> {
    /** The elements, bottom first: the source's private array. */
    var stack: seq<T>

    constructor ()
      ensures stack == []
    {
      stack := [];
    }

    /** Replaces the elements with an empty array. */
    method Clear()
      modifies this
      ensures stack == []
    {
      stack := [];
    }

    /** The elements bottom-to-top, in push order. */
    method GetStack() returns (s: seq<T>)
      ensures s == stack
    {
      s := stack;
    }

    method Push(item: T)
      modifies this
      ensures stack == old(stack) + [item]
    {
      stack := stack + [item];
    }

    /** Removes and returns the top element; `undefined` (None) on an empty
        stack, which stays empty. */
    method Pop() returns (top: Option<T>)
      modifies this
      ensures old(stack) == [] ==> top == None && stack == []
      ensures old(stack) != [] ==>
        top == Some(old(stack)[|old(stack)| - 1]) && stack == old(stack)[..|old(stack)| - 1]
    {
      if |stack| == 0 {
        top := None;
      } else {
        top := Some(stack[|stack| - 1]);
        stack := stack[..|stack| - 1];
      }
    }

    /** The top element without removing it; `undefined` (None) when empty. */
    method Peek() returns (top: Option<T>)
      ensures top.None? <==> stack == []
      ensures top.Some? ==> top.value == stack[|stack| - 1]
    {
      if |stack| == 0 {
        top := None;
      } else {
        top := Some(stack[|stack| - 1]);
      }
    }

    method IsEmpty() returns (empty: bool)
      ensures empty <==> |stack| == 0
    {
      empty := |stack| == 0;
    }

    method Size() returns (n: nat)
      ensures n == |stack|
    {
      n := |stack|;
    }
  }

  /** LIFO: after a push, the size has grown by one and a peek sees the
      pushed element; the pop that follows returns it and restores the
      elements as they were. */
  method PushPeekPop<T>(s: Stack<T>, x: T) returns (seen: Option<T>, popped: Option<T>)
    modifies s
    ensures seen == Some(x) && popped == Some(x)
    ensures s.stack == old(s.stack)
  {
    var before := s.Size();
    s.Push(x);
    var after := s.Size();
    assert after == before + 1;
    seen := s.Peek();
    popped := s.Pop();
  }

}
