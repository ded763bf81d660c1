/** The cursor-position stack of the tree placement: a stack of frames from
    the root to the container that receives the next field, and the two
    rules that bring it back to the frame a row names as its parent. */
module Cursor {
  import opened Wrappers
  import opened Stacks

  datatype ContainerKind = ObjectKind | ArrayKind

  /** A `{Type, isRoot, FieldName}` frame. */
  datatype Frame = Frame(kind: ContainerKind, isRoot: bool, fieldName: string)

  const RootFrame: Frame := Frame(ObjectKind, true, "root")

  /** A reposition is due when there is more than the root frame and the top
      frame is not the row's parent. */
  predicate NeedsReposition(frames: seq<Frame>, lastParentField: string) {
    |frames| > 1 && frames[|frames| - 1].fieldName != lastParentField
  }

  /** The frames left after popping until the top is named
      `lastParentField`: the longest prefix whose top has that name, or none
      at all when no frame has it. */
  function PopTo(frames: seq<Frame>, lastParentField: string): (r: seq<Frame>)
    ensures |r| <= |frames| && r == frames[..|r|]
    ensures r == [] || r[|r| - 1].fieldName == lastParentField
    ensures forall i :: |r| <= i < |frames| ==> frames[i].fieldName != lastParentField
    decreases |frames|
  {
    if |frames| == 0 || frames[|frames| - 1].fieldName == lastParentField then frames
    else PopTo(frames[..|frames| - 1], lastParentField)
  }

  /** `shouldRepositionCursorPointerStack`: false on an empty stack, on a
      stack of one frame, and when the top frame is the parent; true
      otherwise. */
  method ShouldReposition(st: Stack<Frame>, lastParentField: string) returns (should: bool)
    ensures should == NeedsReposition(st.stack, lastParentField)
  {
    var n := st.Size();
    if n <= 1 {
      return false;
    }
    var top := st.Peek();
    should := top.value.fieldName != lastParentField;
  }

  /** `repositionCursorPointerStack`: pops frames until the top frame is the
      parent; the frames below it are kept. */
  method Reposition(st: Stack<Frame>, lastParentField: string)
    modifies st
    ensures st.stack == PopTo(old(st.stack), lastParentField)
  {
    var top := st.Peek();
    while top.Some? && top.value.fieldName != lastParentField
      invariant PopTo(st.stack, lastParentField) == PopTo(old(st.stack), lastParentField)
      invariant top.None? <==> st.stack == []
      invariant top.Some? ==> top.value == st.stack[|st.stack| - 1]
      decreases |st.stack|
    {
      var _ := st.Pop();
      top := st.Peek();
    }
  }

  /** A stack with more than one frame needs repositioning exactly when
      repositioning would change it; a stack that does not need it, and
      whose top is the parent, is left as it is. */
  lemma NeedsRepositionIffMoves(frames: seq<Frame>, lastParentField: string)
    ensures |frames| > 1 ==> (NeedsReposition(frames, lastParentField) <==> PopTo(frames, lastParentField) != frames)
    ensures |frames| > 0 && frames[|frames| - 1].fieldName == lastParentField ==>
      !NeedsReposition(frames, lastParentField) && PopTo(frames, lastParentField) == frames
  {
  }

  /** Repositioning twice to the same parent is repositioning once. */
  lemma PopToIdempotent(frames: seq<Frame>, lastParentField: string)
    ensures PopTo(PopTo(frames, lastParentField), lastParentField) == PopTo(frames, lastParentField)
  {
  }

  /** The test scenarios of both rules, checked against their contracts. */
  method RepositionScenarios()
  {
    var st := new Stack<Frame>();
    var should := ShouldReposition(st, "root");
    assert !should;
    Reposition(st, "root");
    var n := st.Size();
    assert n == 0;

    st.Push(RootFrame);
    should := ShouldReposition(st, "root");
    assert !should;
    should := ShouldReposition(st, "trains");
    assert !should;
    Reposition(st, "root");
    n := st.Size();
    assert n == 1;

    st.Push(Frame(ArrayKind, false, "trains"));
    should := ShouldReposition(st, "root");
    assert should;
    Reposition(st, "root");
    n := st.Size();
    var top := st.Peek();
    assert n == 1 && top == Some(RootFrame);

    st.Push(Frame(ArrayKind, false, "trains"));
    st.Push(Frame(ObjectKind, false, "train"));
    Reposition(st, "trains");
    n := st.Size();
    top := st.Peek();
    assert n == 2 && top.value.fieldName == "trains";
  }

}
