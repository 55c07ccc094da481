/** The game orchestrator (game/tictactoe.py): the two players, the order
    in which they move, and the outcome a game ends with. The board
    operations it calls but that are not defined alongside it (making a
    move, the fullness check and the winner check) are parameters. */
module Game {
  import opened Boards

  /** `PlayerRepr`: the mark a player puts on the board. */
  datatype Mark = X | O {
    /** `repr.name`, the string the winner check is asked about: one
        character, and different for the two marks. */
    function Name(): (s: string)
      ensures |s| == 1
      ensures s[0] == 'X' <==> this == X
      ensures s[0] == 'O' <==> this == O
    {
      match this
      case X => "X"
      case O => "O"
    }
  }

  /** The strategy a player chooses its moves with. */
  datatype Strategy = Human | Random | Computer

  /** A player: its mark and its strategy. */
  datatype Player = Player(repr: Mark, strategy: Strategy)

  /** `Outcome`: the result a finished game reports. */
  datatype Outcome = XWins | OWins | Tie {
    /** The value the enumeration gives each outcome: 1 for a win of X,
        -1 for a win of O and 0 for a tie, each in both directions. */
    function Value(): (v: int)
      ensures v == 1 <==> this == XWins
      ensures v == -1 <==> this == OWins
      ensures v == 0 <==> this == Tie
    {
      match this
      case XWins => 1
      case OWins => -1
      case Tie => 0
    }
  }

  /** The outcome when the player holding mark m has just completed a win:
      never a tie, value 1 for X and -1 for O. */
  function WinFor(m: Mark): (o: Outcome)
    ensures o != Tie
    ensures o.Value() == (if m == X then 1 else -1)
  {
    if m == X then XWins else OWins
  }

  /** The three outcomes have distinct values, so the value alone tells
      which outcome a game ended with. */
  lemma OutcomeValuesDistinct(o: Outcome, o': Outcome)
    ensures o.Value() == o'.Value() <==> o == o'
  {}

  /** `PlayerType.HUMAN.value` and `PlayerType.RANDOM.value`. */
  const HumanType := 1
  const RandomType := 2

  /** `define_player`: seat 0 plays X and every other seat O; type 1 is a
      human, type 2 a random player, and any other value a computer. */
  function DefinePlayer(playerNumber: int, playerType: int): (p: Player)
    ensures p.repr == X <==> playerNumber == 0
    ensures p.repr == O <==> playerNumber != 0
    ensures p.strategy == Human <==> playerType == HumanType
    ensures p.strategy == Random <==> playerType == RandomType
    ensures p.strategy == Computer <==> playerType != HumanType && playerType != RandomType
  {
    var repr := if playerNumber == 0 then X else O;
    if playerType == HumanType then Player(repr, Human)
    else if playerType == RandomType then Player(repr, Random)
    else Player(repr, Computer)
  }

  /** The player list the constructor builds: seat i made from choice i. */
  function Roster(playerChoices: seq<int>): (players: seq<Player>)
    ensures |players| == |playerChoices|
  {
    seq(|playerChoices|, i requires 0 <= i < |playerChoices| => DefinePlayer(i, playerChoices[i]))
  }

  /** In a roster the first player is X and every later one is O, each with
      the strategy its choice names; so the first two players differ. */
  lemma RosterSeats(playerChoices: seq<int>)
    ensures var players := Roster(playerChoices);
            && (forall i :: 0 <= i < |players| ==> (players[i].repr == X <==> i == 0))
            && (forall i :: 0 <= i < |players| ==> players[i].strategy == DefinePlayer(0, playerChoices[i]).strategy)
            && (|players| >= 2 ==> players[0] != players[1])
  {
    var players := Roster(playerChoices);
    if |players| >= 2 {
      assert players[0].repr == X && players[1].repr == O;
    }
  }

  /** `change_turn`: the first player after the second one, and the second
      player after anybody else. */
  function ChangeTurn(players: seq<Player>, curr: Player): (next: Player)
    requires |players| >= 2
    ensures next == players[0] || next == players[1]
    ensures players[0] != players[1] ==> (next == players[0] <==> curr == players[1])
  {
    if curr == players[1] then players[0] else players[1]
  }

  /** Changing turns twice gives the turn back to whichever of the two
      players had it, and never leaves it with the same player. */
  lemma ChangeTurnTwice(players: seq<Player>, curr: Player)
    requires |players| >= 2 && players[0] != players[1]
    requires curr == players[0] || curr == players[1]
    ensures ChangeTurn(players, curr) != curr
    ensures ChangeTurn(players, ChangeTurn(players, curr)) == curr
  {}

  /** What the game loop needs of a move to stop: on a board that is not
      full, every move leaves fewer positions free. */
  ghost predicate MovesFill(move: (Player, Board) -> Board, isFull: Board -> bool)
  {
    forall p: Player, b: Board :: !isFull(b) ==> FreeCells(move(p, b).positions) < FreeCells(b.positions)
  }

  /** A game as it was played: who moved in turn, the board before the first
      move and after each move, and the outcome. */
  datatype Trace = Trace(movers: seq<Player>, boards: seq<Board>, outcome: Outcome)

  function Last<T>(s: seq<T>): T
    requires s != []
  {
    s[|s| - 1]
  }

  /** The game `play` runs from the board `board` with `curr` to move: while
      the board is not full the current player moves; a move after which the
      winner check holds for the mover's mark ends the game with that mark's
      win, otherwise the turn changes; a full board ends it with a tie. */
  function Playout(players: seq<Player>, curr: Player, board: Board,
                   move: (Player, Board) -> Board, isFull: Board -> bool,
                   isWinner: (Board, string) -> bool): (t: Trace)
    requires |players| >= 2 && MovesFill(move, isFull)
    ensures |t.boards| == |t.movers| + 1 && t.boards[0] == board
    decreases FreeCells(board.positions)
  {
    if isFull(board) then Trace([], [board], Tie)
    else
      var next := move(curr, board);
      if isWinner(next, curr.repr.Name()) then Trace([curr], [board, next], WinFor(curr.repr))
      else
        var rest := Playout(players, ChangeTurn(players, curr), next, move, isFull, isWinner);
        Trace([curr] + rest.movers, [board] + rest.boards, rest.outcome)
  }

  /** The trace replays the game: every move was made on a board that was
      not full, by the player recorded for it, and turned the board before
      it into the board after it; no move but the last won for its mover. */
  predicate Replays(t: Trace, move: (Player, Board) -> Board, isFull: Board -> bool,
                    isWinner: (Board, string) -> bool)
  {
    && |t.boards| == |t.movers| + 1
    && (forall i :: 0 <= i < |t.movers| ==> !isFull(t.boards[i]))
    && (forall i :: 0 <= i < |t.movers| ==> t.boards[i + 1] == move(t.movers[i], t.boards[i]))
    && (forall i :: 0 <= i < |t.movers| - 1 ==> !isWinner(t.boards[i + 1], t.movers[i].repr.Name()))
  }

  /** The outcome agrees with how the game ended: a tie exactly when the
      final board is full and the last move, if there was one, did not win
      for its mover; otherwise the last mover completed a win and the
      outcome is that mover's win. */
  predicate Decided(t: Trace, isFull: Board -> bool, isWinner: (Board, string) -> bool)
    requires |t.boards| == |t.movers| + 1
  {
    && (t.outcome == Tie <==>
          isFull(Last(t.boards)) && (t.movers == [] || !isWinner(Last(t.boards), Last(t.movers).repr.Name())))
    && (t.outcome != Tie ==>
          && t.movers != []
          && isWinner(Last(t.boards), Last(t.movers).repr.Name())
          && t.outcome == WinFor(Last(t.movers).repr))
  }

  /** The movers take turns: `first` makes the even-numbered moves and
      `second` the odd-numbered ones. */
  predicate Alternating(t: Trace, first: Player, second: Player)
  {
    forall i :: 0 <= i < |t.movers| ==> t.movers[i] == if i % 2 == 0 then first else second
  }

  /** Every game `play` runs is replayed by its trace. */
  lemma {:induction false} PlayoutSteps(players: seq<Player>, curr: Player, board: Board,
                                        move: (Player, Board) -> Board, isFull: Board -> bool,
                                        isWinner: (Board, string) -> bool)
    requires |players| >= 2 && MovesFill(move, isFull)
    ensures Replays(Playout(players, curr, board, move, isFull, isWinner), move, isFull, isWinner)
    decreases FreeCells(board.positions)
  {
    if !isFull(board) {
      var next := move(curr, board);
      if !isWinner(next, curr.repr.Name()) {
        var t := Playout(players, curr, board, move, isFull, isWinner);
        var rest := Playout(players, ChangeTurn(players, curr), next, move, isFull, isWinner);
        PlayoutSteps(players, ChangeTurn(players, curr), next, move, isFull, isWinner);
        assert t.movers == [curr] + rest.movers && t.boards == [board] + rest.boards;
        forall i | 1 <= i < |t.movers|
          ensures !isFull(t.boards[i]) && t.boards[i + 1] == move(t.movers[i], t.boards[i])
        {
          var j := i - 1;
          assert t.movers[i] == rest.movers[j] && t.boards[i] == rest.boards[j] && t.boards[i + 1] == rest.boards[j + 1];
        }
        forall i | 1 <= i < |t.movers| - 1
          ensures !isWinner(t.boards[i + 1], t.movers[i].repr.Name())
        {
          var j := i - 1;
          assert t.movers[i] == rest.movers[j] && t.boards[i + 1] == rest.boards[j + 1];
        }
      }
    }
  }

  /** Every game `play` runs ends with the outcome its last move decides;
      in particular a winning move that fills the board is not a tie. */
  lemma {:induction false} PlayoutOutcome(players: seq<Player>, curr: Player, board: Board,
                                          move: (Player, Board) -> Board, isFull: Board -> bool,
                                          isWinner: (Board, string) -> bool)
    requires |players| >= 2 && MovesFill(move, isFull)
    ensures Decided(Playout(players, curr, board, move, isFull, isWinner), isFull, isWinner)
    decreases FreeCells(board.positions)
  {
    if !isFull(board) {
      var next := move(curr, board);
      if !isWinner(next, curr.repr.Name()) {
        var t := Playout(players, curr, board, move, isFull, isWinner);
        var rest := Playout(players, ChangeTurn(players, curr), next, move, isFull, isWinner);
        PlayoutOutcome(players, ChangeTurn(players, curr), next, move, isFull, isWinner);
        assert Last(t.boards) == Last(rest.boards);
        if rest.movers == [] {
          assert t.movers == [curr];
        } else {
          assert Last(t.movers) == Last(rest.movers);
        }
      }
    }
  }

  /** Between two distinct players the turn strictly alternates, starting
      with the player who moves first. */
  lemma {:induction false} PlayoutAlternates(players: seq<Player>, curr: Player, board: Board,
                                             move: (Player, Board) -> Board, isFull: Board -> bool,
                                             isWinner: (Board, string) -> bool)
    requires |players| >= 2 && MovesFill(move, isFull)
    requires players[0] != players[1] && (curr == players[0] || curr == players[1])
    ensures Alternating(Playout(players, curr, board, move, isFull, isWinner), curr, ChangeTurn(players, curr))
    decreases FreeCells(board.positions)
  {
    if !isFull(board) {
      var next := move(curr, board);
      if !isWinner(next, curr.repr.Name()) {
        var other := ChangeTurn(players, curr);
        var t := Playout(players, curr, board, move, isFull, isWinner);
        var rest := Playout(players, other, next, move, isFull, isWinner);
        PlayoutAlternates(players, other, next, move, isFull, isWinner);
        ChangeTurnTwice(players, curr);
        forall i | 1 <= i < |t.movers|
          ensures t.movers[i] == if i % 2 == 0 then curr else other
        {
          var j := i - 1;
          assert t.movers[i] == rest.movers[j];
          assert j % 2 == 0 <==> i % 2 != 0;
        }
      }
    }
  }

  /** X makes the even-numbered moves and O the odd-numbered ones. */
  predicate MarksAlternate(t: Trace)
  {
    forall i :: 0 <= i < |t.movers| ==> (t.movers[i].repr == X <==> i % 2 == 0)
  }

  /** In a game between the players a constructor built, the first player
      moves first, the two players strictly alternate, and so the marks go
      X, O, X, ... */
  lemma GameMarksAlternate(playerChoices: seq<int>, board: Board,
                           move: (Player, Board) -> Board, isFull: Board -> bool,
                           isWinner: (Board, string) -> bool)
    requires |playerChoices| >= 2 && MovesFill(move, isFull)
    ensures var players := Roster(playerChoices);
            Alternating(Playout(players, players[0], board, move, isFull, isWinner), players[0], players[1])
    ensures MarksAlternate(Playout(Roster(playerChoices), Roster(playerChoices)[0], board, move, isFull, isWinner))
  {
    var players := Roster(playerChoices);
    RosterSeats(playerChoices);
    PlayoutAlternates(players, players[0], board, move, isFull, isWinner);
  }

  /** `TicTacToe`: a board and the list of players. */
  class TicTacToe {
    var board: Board
    var players: seq<Player>

    /** Builds a new board of the given dimension (3 unless given) and one
        player per choice, in the order given. */
    constructor (playerChoices: seq<int>, boardDim: int := 3)
      ensures board == NewBoard(boardDim)
      ensures players == Roster(playerChoices)
    {
      board := NewBoard(boardDim);
      var ps: seq<Player> := [];
      for i := 0 to |playerChoices|
        invariant |ps| == i
        invariant forall j :: 0 <= j < i ==> ps[j] == DefinePlayer(j, playerChoices[j])
      {
        ps := ps + [DefinePlayer(i, playerChoices[i])];
      }
      players := ps;
    }

    /** `play`: the first player moves first; the loop runs while the board
        is not full, returns the mover's win as soon as the winner check
        holds for the mover's mark, and otherwise hands the turn on; once the
        board is full the game is a tie. The board ends as the last move
        left it. */
    method Play(move: (Player, Board) -> Board, isFull: Board -> bool, isWinner: (Board, string) -> bool)
      returns (outcome: Outcome)
      requires |players| >= 2 && MovesFill(move, isFull)
      modifies this`board
      ensures var t := Playout(players, players[0], old(board), move, isFull, isWinner);
              outcome == t.outcome && board == Last(t.boards)
    {
      var currPlayer := players[0];
      ghost var game := Playout(players, currPlayer, board, move, isFull, isWinner);
      while !isFull(board)
        invariant var rest := Playout(players, currPlayer, board, move, isFull, isWinner);
                  rest.outcome == game.outcome && Last(rest.boards) == Last(game.boards)
        decreases FreeCells(board.positions)
      {
        board := move(currPlayer, board);
        if isWinner(board, currPlayer.repr.Name()) {
          return WinFor(currPlayer.repr);
        }
        currPlayer := ChangeTurn(players, currPlayer);
      }
      return Tie;
    }
  }
}
