/**
 * The index loops of `printOrphanCommentsBeforeThisChildNode` and
 * `printOrphanCommentsEnding`, which scan a position-sorted child list.
 * Each is proved against the list functions of the emission module.
 */
module Orphans {
  import opened Ast
  import opened Emission

  /**
   * The first loop of `printOrphanCommentsBeforeThisChildNode`: it does not stop
   * at a match, so it finds the last position holding the node, or -1.
   */
  method IndexOfChild(everything: seq<Child>, id: nat) returns (positionOfTheChild: int)
    ensures positionOfTheChild == LastIndexOf(everything, NodeChild(id))
    ensures positionOfTheChild == -1 <==> NodeChild(id) !in everything
  {
    positionOfTheChild := -1;
    for i := 0 to |everything|
      invariant positionOfTheChild == LastIndexOf(everything[..i], NodeChild(id))
    {
      assert everything[..i + 1][..i] == everything[..i];
      if everything[i] == NodeChild(id) {
        positionOfTheChild := i;
      }
    }
    assert everything[..|everything|] == everything;
    LastIndexOfSpec(everything, NodeChild(id));
  }

  /**
   * The second loop: walking back from the node, the nearest preceding entry
   * that is not a comment, or -1. Everything strictly between is a comment,
   * which is why the "Expected comment" exception after it cannot be thrown.
   */
  method PreviousNonComment(everything: seq<Child>, positionOfTheChild: nat)
    returns (positionOfPreviousChild: int)
    requires positionOfTheChild < |everything|
    ensures -1 <= positionOfPreviousChild < positionOfTheChild
    ensures positionOfPreviousChild >= 0 ==> !everything[positionOfPreviousChild].CommentChild?
    ensures forall j :: positionOfPreviousChild < j < positionOfTheChild ==> everything[j].CommentChild?
    ensures positionOfTheChild - 1 - positionOfPreviousChild
            == |TrailingComments(everything[..positionOfTheChild])|
  {
    positionOfPreviousChild := -1;
    var i := positionOfTheChild - 1;
    while i >= 0 && positionOfPreviousChild == -1
      invariant -1 <= i < positionOfTheChild
      invariant positionOfPreviousChild == -1 || positionOfPreviousChild == i + 1
      invariant positionOfPreviousChild < positionOfTheChild
      invariant positionOfPreviousChild >= 0 ==> !everything[positionOfPreviousChild].CommentChild?
      invariant forall j :: i + 1 < j < positionOfTheChild ==> everything[j].CommentChild?
      invariant positionOfPreviousChild == -1 ==> forall j :: i < j < positionOfTheChild ==> everything[j].CommentChild?
      decreases i + 1
    {
      if !everything[i].CommentChild? {
        positionOfPreviousChild := i;
      }
      i := i - 1;
    }
    TrailingCommentsUnique(everything[..positionOfTheChild], positionOfTheChild - 1 - positionOfPreviousChild);
  }

  /** The counting loop of `printOrphanCommentsEnding`: the length of the trailing comment run. */
  method CountCommentsAtEnd(everything: seq<Child>) returns (commentsAtEnd: nat)
    ensures commentsAtEnd == |TrailingComments(everything)|
    ensures commentsAtEnd <= |everything|
    ensures forall j :: |everything| - commentsAtEnd <= j < |everything| ==> everything[j].CommentChild?
    ensures commentsAtEnd < |everything| ==> !everything[|everything| - 1 - commentsAtEnd].CommentChild?
  {
    commentsAtEnd := 0;
    var findingComments := true;
    while findingComments && commentsAtEnd < |everything|
      invariant commentsAtEnd <= |everything|
      invariant forall j :: |everything| - commentsAtEnd <= j < |everything| ==> everything[j].CommentChild?
      invariant !findingComments ==> commentsAtEnd < |everything| && !everything[|everything| - 1 - commentsAtEnd].CommentChild?
      decreases |everything| - commentsAtEnd, findingComments
    {
      var last := everything[|everything| - 1 - commentsAtEnd];
      findingComments := last.CommentChild?;
      if findingComments {
        commentsAtEnd := commentsAtEnd + 1;
      }
    }
    TrailingCommentsUnique(everything, commentsAtEnd);
  }

  /** A comment suffix that cannot be extended is the one `TrailingComments` finds. */
  lemma TrailingCommentsUnique(s: seq<Child>, k: nat)
    requires k <= |s|
    requires forall j :: |s| - k <= j < |s| ==> s[j].CommentChild?
    requires k < |s| ==> !s[|s| - 1 - k].CommentChild?
    ensures k == |TrailingComments(s)|
  {
    var r := TrailingComments(s);
    TrailingCommentsShape(s);
    assert |r| > k ==> s[|s| - |r| + (|r| - k - 1)] == CommentChild(r[|r| - k - 1]);
  }
}
