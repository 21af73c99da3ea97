/** The rules of the Wordle environment as values: the game constants, the
    vocabulary matrix, the feedback row written by one step, the reward, and
    the episode state machine (reset and step) over plain sequences. The class
    in module WordleEnvironment is proved to follow these definitions. */
module WordleRules {
  import opened Tokenizers

  const WORD_LENGTH: nat := 5
  const MAX_TRIES: nat := 6
  const GAME_VOCABULARY: seq<string> := ["sword", "crane", "plate"]

  // The four codes of a feedback cell.
  const EMPTY: int := 0
  const WRONG: int := 1
  const RIGHT: int := 2
  const PRESENT: int := 3

  /** A word is a row of letter codes; a grid is MAX_TRIES rows of them. */
  type Word = seq<int>
  type Grid = seq<seq<int>>

  predicate IsWord(w: Word) {
    |w| == WORD_LENGTH
  }

  lemma VocabularyWordLengths()
    ensures forall i :: 0 <= i < |GAME_VOCABULARY| ==> |GAME_VOCABULARY[i]| == WORD_LENGTH
  {
  }

  // ---------------------------------------------------------------------
  // Vocabulary matrix
  // ---------------------------------------------------------------------

  /** The tokenizer has a code for every letter of the vocabulary. */
  predicate CoversVocabulary(tok: Tokenizer) {
    forall i :: 0 <= i < |GAME_VOCABULARY| ==> tok.Covers(GAME_VOCABULARY[i])
  }

  /** Row i of the vocabulary matrix is the encoding of vocabulary word i. */
  function Vocabulary(tok: Tokenizer): (rows: seq<Word>)
    requires CoversVocabulary(tok)
    ensures |rows| == |GAME_VOCABULARY|
    ensures forall i :: 0 <= i < |rows| ==>
              && IsWord(rows[i]) && |GAME_VOCABULARY[i]| == WORD_LENGTH
              && forall j :: 0 <= j < WORD_LENGTH ==> rows[i][j] == tok.letter2index[GAME_VOCABULARY[i][j]]
  {
    VocabularyWordLengths();
    seq(|GAME_VOCABULARY|, i requires 0 <= i < |GAME_VOCABULARY| => tok.Encode(GAME_VOCABULARY[i]))
  }

  // ---------------------------------------------------------------------
  // Feedback row
  // ---------------------------------------------------------------------

  /** The exact-match mask: true at p when the guess has the target's code at p. */
  function RightMask(word: Word, action: Word): seq<bool>
    requires |action| == |word|
  {
    seq(|word|, p requires 0 <= p < |word| => action[p] == word[p])
  }

  /** Membership of the TARGET's codes in the guess: indexed by target
      positions, true at p when word[p] occurs anywhere in the guess. */
  function IsIn(word: Word, action: Word): seq<bool> {
    seq(|word|, p requires 0 <= p < |word| => word[p] in action)
  }

  /** Masked assignment: every cell where the mask holds becomes v. */
  function Assign(row: seq<int>, mask: seq<bool>, v: int): seq<int>
    requires |mask| == |row|
  {
    seq(|row|, p requires 0 <= p < |row| => if mask[p] then v else row[p])
  }

  /** The feedback row one step writes, in the order the environment writes
      it: all WRONG, then RIGHT on exact matches, then PRESENT on the target
      positions whose code occurs in the guess. What the row holds is stated
      by FeedbackCells. */
  function FeedbackRow(word: Word, action: Word): (row: seq<int>)
    requires |action| == |word|
    ensures |row| == |word|
  {
    var notRight := seq(|word|, _ => WRONG);
    var right := Assign(notRight, RightMask(word, action), RIGHT);
    Assign(right, IsIn(word, action), PRESENT)
  }

  /** The last write covers every exact match, so a feedback cell is PRESENT
      exactly when the target's code there occurs in the guess and WRONG
      otherwise; no cell is RIGHT or EMPTY. */
  lemma FeedbackCells(word: Word, action: Word)
    requires |action| == |word|
    ensures var row := FeedbackRow(word, action);
            && (forall p :: 0 <= p < |word| ==> (row[p] == PRESENT <==> word[p] in action))
            && (forall p :: 0 <= p < |word| ==> (row[p] == WRONG <==> word[p] !in action))
            && (forall p :: 0 <= p < |word| && action[p] == word[p] ==> row[p] == PRESENT)
            && RIGHT !in row && EMPTY !in row
  {
  }

  // ---------------------------------------------------------------------
  // Reward
  // ---------------------------------------------------------------------

  /** Every entry of the mask holds. */
  predicate All(mask: seq<bool>) {
    forall p :: 0 <= p < |mask| ==> mask[p]
  }

  /** The number of entries of the mask that hold (a boolean mask's sum). */
  function Count(mask: seq<bool>): (n: nat)
    ensures n <= |mask|
    ensures n == |mask| <==> All(mask)
  {
    if mask == [] then 0
    else
      assert All(mask) <==> mask[0] && All(mask[1..]) by {
        if mask[0] && All(mask[1..]) {
          forall p | 0 <= p < |mask| ensures mask[p] {
            if p > 0 { assert mask[p] == mask[1..][p - 1]; }
          }
        }
      }
      (if mask[0] then 1 else 0) + Count(mask[1..])
  }

  /** The exact-match mask is all true exactly when the guess is the target. */
  lemma AllRightIffSame(word: Word, action: Word)
    requires |action| == |word|
    ensures All(RightMask(word, action)) <==> action == word
  {
    if All(RightMask(word, action)) {
      forall p | 0 <= p < |word| ensures action[p] == word[p] {
        assert RightMask(word, action)[p];
      }
      assert action == word;
    }
  }

  /** The reward of one step: 10.0 for the target itself, otherwise the
      fraction of positions that match exactly. */
  function Reward(word: Word, action: Word): (reward: real)
    requires IsWord(word) && IsWord(action)
    ensures reward == 10.0 <==> action == word
    ensures action != word ==>
              reward * WORD_LENGTH as real == Count(RightMask(word, action)) as real
    ensures action != word ==> 0.0 <= reward < 1.0
  {
    var mask := RightMask(word, action);
    AllRightIffSame(word, action);
    if All(mask) then 10.0 else Count(mask) as real / WORD_LENGTH as real
  }

  // ---------------------------------------------------------------------
  // Episode state
  // ---------------------------------------------------------------------

  /** The target, the try counter, the guess history and the feedback grid. */
  datatype EnvState = EnvState(word: Word, numTries: int, guess: Grid, isRight: Grid)

  /** What the caller sees: the guess grid stacked on the feedback grid. */
  datatype Observation = Observation(guess: Grid, isRight: Grid)

  /** What one step hands back, together with the state it leaves behind. */
  datatype StepOutcome = StepOutcome(next: EnvState, obs: Observation, reward: real, done: bool)

  predicate Shaped(g: Grid) {
    |g| == MAX_TRIES && forall i :: 0 <= i < |g| ==> |g[i]| == WORD_LENGTH
  }

  /** A MAX_TRIES x WORD_LENGTH grid with every cell v. */
  function Filled(v: int): (g: Grid)
    ensures Shaped(g)
    ensures forall i, p :: 0 <= i < MAX_TRIES && 0 <= p < WORD_LENGTH ==> g[i][p] == v
  {
    seq(MAX_TRIES, _ => seq(WORD_LENGTH, _ => v))
  }

  /** Shapes and bounds: the counter always names a row of the grids. */
  predicate Inv(s: EnvState) {
    && IsWord(s.word)
    && 0 <= s.numTries < MAX_TRIES
    && Shaped(s.guess)
    && Shaped(s.isRight)
  }

  /** Rows before the counter hold a played guess and its feedback (only
      WRONG and PRESENT cells); rows from the counter on are untouched. */
  predicate History(s: EnvState, pad: int)
    requires Inv(s)
  {
    && (forall i, p :: 0 <= i < s.numTries && 0 <= p < WORD_LENGTH ==>
          s.isRight[i][p] == WRONG || s.isRight[i][p] == PRESENT)
    && (forall i, p :: s.numTries <= i < MAX_TRIES && 0 <= p < WORD_LENGTH ==>
          s.guess[i][p] == pad && s.isRight[i][p] == EMPTY)
  }

  function ObservationOf(s: EnvState): Observation {
    Observation(s.guess, s.isRight)
  }

  /** A fresh episode on target `word`: counter 0, all feedback EMPTY, every
      guess cell the pad code. */
  function ResetState(word: Word, pad: int): (s: EnvState)
    requires IsWord(word)
    ensures Inv(s) && History(s, pad)
    ensures s.word == word && s.numTries == 0
    ensures forall i, p :: 0 <= i < MAX_TRIES && 0 <= p < WORD_LENGTH ==>
              s.guess[i][p] == pad && s.isRight[i][p] == EMPTY
  {
    EnvState(word, 0, Filled(pad), Filled(EMPTY))
  }

  /** One step with guess `action`. `pick` is the target the self-reset
      draws when the step ends the episode. */
  function StepSpec(s: EnvState, action: Word, pick: Word, pad: int): (o: StepOutcome)
    requires Inv(s) && IsWord(action) && IsWord(pick)
    ensures Inv(o.next)
    ensures o.done <==> action == s.word || s.numTries == MAX_TRIES - 1
    ensures o.reward == Reward(s.word, action)
    ensures o.obs == ObservationOf(o.next)
    ensures o.done ==> o.next == ResetState(pick, pad)
    ensures !o.done ==> o.next.word == s.word && o.next.numTries == s.numTries + 1
  {
    var r := s.numTries;
    var played := s.(isRight := s.isRight[r := FeedbackRow(s.word, action)], guess := s.guess[r := action]);
    if action == s.word || r == MAX_TRIES - 1 then
      var restarted := ResetState(pick, pad);
      StepOutcome(restarted, ObservationOf(restarted), Reward(s.word, action), true)
    else
      var next := played.(numTries := r + 1);
      StepOutcome(next, ObservationOf(next), Reward(s.word, action), false)
  }

  /** A step that does not end the episode writes the guess and its feedback
      into row num_tries and leaves every other row as it was. */
  lemma NonTerminalStepRows(s: EnvState, action: Word, pick: Word, pad: int)
    requires Inv(s) && IsWord(action) && IsWord(pick)
    requires !StepSpec(s, action, pick, pad).done
    ensures var n := StepSpec(s, action, pick, pad).next;
            && n.guess == s.guess[s.numTries := action]
            && n.isRight == s.isRight[s.numTries := FeedbackRow(s.word, action)]
  {
  }

  /** Every step keeps the history invariant: played rows hold only WRONG and
      PRESENT, unplayed rows are untouched. */
  lemma StepKeepsHistory(s: EnvState, action: Word, pick: Word, pad: int)
    requires Inv(s) && IsWord(action) && IsWord(pick)
    requires History(s, pad)
    ensures History(StepSpec(s, action, pick, pad).next, pad)
  {
    var o := StepSpec(s, action, pick, pad);
    if !o.done {
      var n, r := o.next, s.numTries;
      NonTerminalStepRows(s, action, pick, pad);
      forall i, p | 0 <= i < n.numTries && 0 <= p < WORD_LENGTH
        ensures n.isRight[i][p] == WRONG || n.isRight[i][p] == PRESENT
      {
        if i == r {
          FeedbackCells(s.word, action);
          assert n.isRight[i] == FeedbackRow(s.word, action);
        }
      }
    }
  }
}
