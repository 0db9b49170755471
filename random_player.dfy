/**
 * The random player: it plays one of the legal moves, or passes when there
 * is none. The random draw is the parameter `pick`, read modulo the number
 * of moves.
 */
module RandomPlay {
  import opened Wrappers
  import opened GameBoard

  class RandomPlayer {
    constructor ()
    {
    }

    /** `make_decision`: a legal move of `board`, or none exactly when there is no legal move. */
    method MakeDecision(board: NineBoard, pick: nat) returns (move: Option<Move>)
      requires board.Valid()
      ensures move.None? <==> LegalMoves(board.Snapshot()) == []
      ensures move.Some? ==> move.value in LegalMoves(board.Snapshot()) && Allowed(board.Snapshot(), move.value)
    {
      var actions := board.Actions();
      if actions != [] {
        LegalMovesSpec(board.Snapshot());
        move := Some(actions[pick % |actions|]);
      } else {
        move := None;
      }
    }
  }
}
