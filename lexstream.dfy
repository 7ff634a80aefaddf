/**
 * The stream under the lexer of src/parser/lexer.c: the bytes it delivers,
 * the positions it passes through, and how the lexer's index, position and
 * one-byte slots stay consistent with them.
 */
module LexStream {
  import opened Token
  import opened LexSpec

  /** The byte that marks an empty slot. */
  const NUL: char := 0 as char

  /**
   * The lexer state is consistent with its stream: the position is the one
   * after idx bytes, and the slots hold the bytes read past the cursor, the
   * push-back slot first.
   */
  ghost predicate Consistent(src: seq<char>, positions: seq<Position>, idx: nat, pos: Position, put: char, peeked: char, cursor: nat)
  {
    && NulFree(src)
    && idx <= |src|
    && Tracked(src, positions)
    && pos == positions[idx]
    && cursor == idx - (if put == NUL then 0 else 1) - (if peeked == NUL then 0 else 1)
    && (put != NUL ==> src[cursor] == put)
    && (peeked != NUL ==> src[idx - 1] == peeked)
  }

  /** positions[k] is the position after the first k bytes of src. */
  ghost predicate Tracked(src: seq<char>, positions: seq<Position>)
  {
    && |positions| == |src| + 1
    && positions[0] == START
    && forall k {:trigger positions[k], src[k]} :: 0 <= k < |src| ==> positions[k + 1] == StepPos(positions[k], src[k])
  }

  /** A tracked position is the position after the bytes before it. */
  lemma {:induction false} TrackedPos(src: seq<char>, ps: seq<Position>, k: nat)
    requires Tracked(src, ps) && k <= |src|
    ensures ps[k] == PosAfter(src[..k])
    decreases k
  {
    if k > 0 {
      TrackedPos(src, ps, k - 1);
      assert src[..k][..k - 1] == src[..k - 1];
      assert ps[k] == StepPos(ps[k - 1], src[k - 1]);
    }
  }

  /** The positions a stream passes through, one per byte read. */
  ghost function Trace(src: seq<char>): (ps: seq<Position>)
    ensures Tracked(src, ps)
    decreases |src|
  {
    if src == [] then [START]
    else
      var ps := Trace(src[..|src| - 1]);
      assert forall k :: 0 <= k < |src| - 1 ==> src[..|src| - 1][k] == src[k];
      ps + [StepPos(ps[|src| - 1], src[|src| - 1])]
  }
}
