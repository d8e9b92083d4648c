/**
 The rules of Rock-Paper-Scissors: the three moves, the outcome of one game
 from the player's point of view, the beats-table, the emoji shown for each
 move's label, and the computer's pick from the fixed list of moves.
 */
module Rules {

  /** The three moves; the source spells them "rock", "paper", "scissors". */
  datatype Move = Rock | Paper | Scissors

  /** The result of one game for the player; the source spells them "win", "loss", "tie". */
  datatype Outcome = Win | Loss | Tie

  /** The label the source uses for a move. */
  function Label(m: Move): (r: string)
    ensures r in {"rock", "paper", "scissors"}
  {
    match m
    case Rock => "rock"
    case Paper => "paper"
    case Scissors => "scissors"
  }

  /** The labels are pairwise different, so a label names one move. */
  lemma LabelInjective(a: Move, b: Move)
    ensures Label(a) == Label(b) ==> a == b
  {
  }

  /**
   The beats-table: the move that `m` defeats, which is always the move just
   before `m` in the cycle rock, paper, scissors.
   */
  function WinningCombination(m: Move): (r: Move)
    ensures Index(r) == (Index(m) + 2) % 3
  {
    match m
    case Rock => Scissors
    case Paper => Rock
    case Scissors => Paper
  }

  /** True when `a` defeats `b` according to the beats-table. */
  predicate Beats(a: Move, b: Move) {
    WinningCombination(a) == b
  }

  /** Position of a move in the cycle rock, paper, scissors. */
  function Index(m: Move): int {
    match m
    case Rock => 0
    case Paper => 1
    case Scissors => 2
  }

  /**
   An independent characterisation of the game: each move defeats the one
   just before it in the cycle rock, paper, scissors (Dafny's % is Euclidean,
   so the difference is taken modulo 3 with a non-negative remainder).
   */
  function CyclicOutcome(player: Move, computer: Move): Outcome {
    var d := (Index(player) - Index(computer)) % 3;
    if d == 0 then Tie else if d == 1 then Win else Loss
  }

  /**
   The outcome of a game for the player: a tie on equal moves, otherwise a
   win exactly when the beats-table maps the player's move to the computer's.
   */
  function DetermineWinner(player: Move, computer: Move): (r: Outcome)
    ensures r == Tie <==> player == computer
    ensures r == CyclicOutcome(player, computer)
  {
    if player == computer then Tie
    else if WinningCombination(player) == computer then Win
    else Loss
  }

  /** The beats-relation is exactly: rock beats scissors, paper beats rock, scissors beats paper. */
  lemma WinExactlyOnBeatsTable(player: Move, computer: Move)
    ensures DetermineWinner(player, computer) == Win <==>
              (player == Rock && computer == Scissors) ||
              (player == Paper && computer == Rock) ||
              (player == Scissors && computer == Paper)
  {
  }

  /** Every move defeats exactly one other move and is defeated by exactly one other move. */
  lemma BeatsIsACycle(m: Move)
    ensures !Beats(m, m)
    ensures exists a :: Beats(a, m) && a != m
    ensures forall a, a' :: Beats(a, m) && Beats(a', m) ==> a == a'
  {
    match m
    case Rock => assert Beats(Paper, Rock);
    case Paper => assert Beats(Scissors, Paper);
    case Scissors => assert Beats(Rock, Scissors);
  }

  /**
   Swapping the players swaps win and loss: for distinct moves exactly one of
   the two orders is a win and the other is a loss; a tie stays a tie.
   */
  lemma Antisymmetric(a: Move, b: Move)
    ensures a != b ==> (DetermineWinner(a, b) == Win <==> DetermineWinner(b, a) == Loss)
    ensures a != b ==> (DetermineWinner(a, b) == Loss <==> DetermineWinner(b, a) == Win)
    ensures a != b ==> DetermineWinner(a, b) != DetermineWinner(b, a)
    ensures DetermineWinner(a, b) == Tie <==> DetermineWinner(b, a) == Tie
  {
  }

  /** Three sample games: rock beats scissors, rock loses to paper, paper ties with paper. */
  lemma Scenarios()
    ensures DetermineWinner(Rock, Scissors) == Win
    ensures DetermineWinner(Rock, Paper) == Loss
    ensures DetermineWinner(Paper, Paper) == Tie
  {
  }

  /** The emoji shown for a move label, and the empty string for any other text. */
  function Emoji(choice: string): (e: string)
    ensures e == "" <==> choice !in {"rock", "paper", "scissors"}
  {
    if choice == "rock" then "\U{1FAA8}"
    else if choice == "paper" then "\U{1F4C4}"
    else if choice == "scissors" then "\U{2702}\U{FE0F}"
    else ""
  }

  /** Each move's label has its own, non-empty emoji. */
  lemma EmojiOfLabel(a: Move, b: Move)
    ensures Emoji(Label(a)) != ""
    ensures Emoji(Label(a)) == Emoji(Label(b)) ==> a == b
  {
  }

  /** The list the computer picks from. */
  const Choices: seq<Move> := [Rock, Paper, Scissors]

  /**
   The computer's pick, given the position `roll` that the random generator
   chose in the list of choices.
   */
  function ComputerChoice(roll: nat): (m: Move)
    requires roll < |Choices|
    ensures Index(m) == roll
  {
    Choices[roll]
  }

  /** Every move can be picked by the computer, and by exactly one position. */
  lemma ComputerChoiceCovers(m: Move)
    ensures 0 <= Index(m) < |Choices| && ComputerChoice(Index(m)) == m
    ensures forall k :: 0 <= k < |Choices| && ComputerChoice(k) == m ==> k == Index(m)
  {
  }
}
