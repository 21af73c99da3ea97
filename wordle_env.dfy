/** The Wordle environment object: a target word, a try counter and two
    MAX_TRIES x WORD_LENGTH integer grids (the guess history and the feedback
    grid), updated in place by `Step` and reallocated by `Reset`. Each method
    is proved to follow the value-level definitions of module WordleRules. */
module WordleEnvironment {
  import opened Tokenizers
  import opened WordleRules

  /** The rows of a two-dimensional array, as a sequence of sequences. */
  function Rows(a: array2<int>): (g: Grid)
    reads a
    ensures |g| == a.Length0
    ensures forall i :: 0 <= i < a.Length0 ==> |g[i]| == a.Length1
    ensures forall i, j :: 0 <= i < a.Length0 && 0 <= j < a.Length1 ==> g[i][j] == a[i, j]
  {
    seq(a.Length0, i requires 0 <= i < a.Length0 reads a =>
      seq(a.Length1, j requires 0 <= j < a.Length1 reads a => a[i, j]))
  }

  /** A grid whose every cell is v reads as Filled(v). */
  lemma RowsOfFilled(a: array2<int>, v: int)
    requires a.Length0 == MAX_TRIES && a.Length1 == WORD_LENGTH
    requires forall i, j :: 0 <= i < MAX_TRIES && 0 <= j < WORD_LENGTH ==> a[i, j] == v
    ensures Rows(a) == Filled(v)
  {
    var g, f := Rows(a), Filled(v);
    forall i | 0 <= i < MAX_TRIES ensures g[i] == f[i] {
      assert forall j :: 0 <= j < WORD_LENGTH ==> g[i][j] == f[i][j];
    }
  }

  /** Writing one row of a grid updates that row of its sequence view. */
  lemma RowsAfterRowWrite(a: array2<int>, before: Grid, r: int, row: seq<int>)
    requires |before| == a.Length0 && 0 <= r < a.Length0 && |row| == a.Length1
    requires forall i :: 0 <= i < a.Length0 ==> |before[i]| == a.Length1
    requires forall j :: 0 <= j < a.Length1 ==> a[r, j] == row[j]
    requires forall i, j :: 0 <= i < a.Length0 && i != r && 0 <= j < a.Length1 ==> a[i, j] == before[i][j]
    ensures Rows(a) == before[r := row]
  {
    var g, h := Rows(a), before[r := row];
    forall i | 0 <= i < a.Length0 ensures g[i] == h[i] {
      assert forall j :: 0 <= j < a.Length1 ==> g[i][j] == h[i][j];
    }
  }

  /** The masked writes that fill feedback row r: the whole row becomes
      WRONG, the exact matches RIGHT, and the target positions whose code
      occurs in the guess PRESENT. Returns the exact-match mask. */
  method WriteFeedbackRow(isRight: array2<int>, r: int, word: Word, action: Word) returns (rightMask: seq<bool>)
    requires 0 <= r < isRight.Length0 && isRight.Length1 == WORD_LENGTH
    requires IsWord(word) && IsWord(action)
    modifies isRight
    ensures rightMask == RightMask(word, action)
    ensures Rows(isRight) == old(Rows(isRight))[r := FeedbackRow(word, action)]
  {
    ghost var before := Rows(isRight);
    forall p | 0 <= p < WORD_LENGTH {
      isRight[r, p] := WRONG;
    }
    rightMask := RightMask(word, action);
    forall p | 0 <= p < WORD_LENGTH && rightMask[p] {
      isRight[r, p] := RIGHT;
    }
    var isIn := IsIn(word, action);
    forall p | 0 <= p < WORD_LENGTH && isIn[p] {
      isRight[r, p] := PRESENT;
    }
    RowsAfterRowWrite(isRight, before, r, FeedbackRow(word, action));
  }

  /** Row r of the guess grid becomes the action. */
  method WriteGuessRow(guess: array2<int>, r: int, action: Word)
    requires 0 <= r < guess.Length0 && guess.Length1 == |action|
    modifies guess
    ensures Rows(guess) == old(Rows(guess))[r := action]
  {
    ghost var before := Rows(guess);
    forall p | 0 <= p < |action| {
      guess[r, p] := action[p];
    }
    RowsAfterRowWrite(guess, before, r, action);
  }

  class WordleEnv {
    var numTries: int
    var isRight: array2<int>
    var guess: array2<int>
    var word: Word
    const tokenizer: Tokenizer
    var gameVocMatrix: array2<int>

    /** The vocabulary matrix holds, in row i, the codes of vocabulary word i. */
    ghost predicate VocabularyReady()
      reads this`gameVocMatrix, gameVocMatrix
    {
      && CoversVocabulary(tokenizer)
      && gameVocMatrix.Length0 == |GAME_VOCABULARY|
      && gameVocMatrix.Length1 == WORD_LENGTH
      && forall i, j :: 0 <= i < |GAME_VOCABULARY| && 0 <= j < WORD_LENGTH ==>
           gameVocMatrix[i, j] == Vocabulary(tokenizer)[i][j]
    }

    /** The object invariant: three distinct arrays, the episode invariant of
        WordleRules on the abstract state, and a target drawn from the
        vocabulary. */
    ghost predicate Valid()
      reads this, isRight, guess, gameVocMatrix
    {
      && VocabularyReady()
      && isRight != guess && gameVocMatrix != isRight && gameVocMatrix != guess
      && isRight.Length0 == MAX_TRIES && isRight.Length1 == WORD_LENGTH
      && guess.Length0 == MAX_TRIES && guess.Length1 == WORD_LENGTH
      && Inv(State())
      && History(State(), tokenizer.pad)
      && word in Vocabulary(tokenizer)
    }

    /** The abstract state of the object. */
    function State(): EnvState
      reads this, isRight, guess
    {
      EnvState(word, numTries, Rows(guess), Rows(isRight))
    }

    /** A snapshot of both grids: two MAX_TRIES x WORD_LENGTH grids in which
        the played rows hold only WRONG and PRESENT feedback and every row from
        the counter on is still pad codes and EMPTY cells. */
    function Observe(): (obs: Observation)
      requires Valid()
      reads this, isRight, guess, gameVocMatrix
      ensures obs == ObservationOf(State())
      ensures Shaped(obs.guess) && Shaped(obs.isRight)
      ensures forall i, p :: 0 <= i < numTries && 0 <= p < WORD_LENGTH ==>
                obs.isRight[i][p] == WRONG || obs.isRight[i][p] == PRESENT
      ensures forall i, p :: numTries <= i < MAX_TRIES && 0 <= p < WORD_LENGTH ==>
                obs.guess[i][p] == tokenizer.pad && obs.isRight[i][p] == EMPTY
    {
      Observation(Rows(guess), Rows(isRight))
    }

    /** Builds the vocabulary matrix and starts the first episode on
        vocabulary word `wordIdx`. */
    constructor (tok: Tokenizer, wordIdx: int)
      requires CoversVocabulary(tok)
      requires 0 <= wordIdx < |GAME_VOCABULARY|
      ensures Valid()
      ensures tokenizer == tok
      ensures fresh(isRight) && fresh(guess) && fresh(gameVocMatrix)
      ensures State() == ResetState(Vocabulary(tok)[wordIdx], tok.pad)
    {
      numTries := 0;
      tokenizer := tok;
      word := [];
      isRight := new int[0, 0];
      guess := new int[0, 0];
      gameVocMatrix := new int[0, 0];
      new;
      InitializeVocabulary();
      var _ := Reset(wordIdx);
    }

    /** Fills the vocabulary matrix: cell (i, j) is the code of letter j of
        vocabulary word i. */
    method InitializeVocabulary()
      requires CoversVocabulary(tokenizer)
      modifies this
      ensures fresh(gameVocMatrix)
      ensures VocabularyReady()
      ensures forall i, j :: 0 <= i < |GAME_VOCABULARY| && 0 <= j < WORD_LENGTH ==>
                gameVocMatrix[i, j] == tokenizer.letter2index[GAME_VOCABULARY[i][j]]
      ensures numTries == old(numTries) && word == old(word)
      ensures isRight == old(isRight) && guess == old(guess)
    {
      VocabularyWordLengths();
      var m := new int[|GAME_VOCABULARY|, WORD_LENGTH]((i, j) => 0);
      for i := 0 to |GAME_VOCABULARY|
        modifies m
        invariant forall i', j :: 0 <= i' < i && 0 <= j < WORD_LENGTH ==>
                    m[i', j] == tokenizer.letter2index[GAME_VOCABULARY[i'][j]]
      {
        for j := 0 to |GAME_VOCABULARY[i]|
          modifies m
          invariant forall i', j' :: 0 <= i' < i && 0 <= j' < WORD_LENGTH ==>
                      m[i', j'] == tokenizer.letter2index[GAME_VOCABULARY[i'][j']]
          invariant forall j' :: 0 <= j' < j ==> m[i, j'] == tokenizer.letter2index[GAME_VOCABULARY[i][j']]
        {
          m[i, j] := tokenizer.letter2index[GAME_VOCABULARY[i][j]];
        }
      }
      gameVocMatrix := m;
    }

    /** Starts a new episode on vocabulary word `wordIdx` (the caller's stand-in
        for the random draw): fresh grids, counter 0, all feedback EMPTY and
        every guess cell the pad code. */
    method Reset(wordIdx: int) returns (obs: Observation)
      requires VocabularyReady()
      requires 0 <= wordIdx < |GAME_VOCABULARY|
      modifies this
      ensures Valid()
      ensures fresh(isRight) && fresh(guess)
      ensures gameVocMatrix == old(gameVocMatrix)
      ensures forall j :: 0 <= j < WORD_LENGTH ==> word[j] == gameVocMatrix[wordIdx, j]
      ensures State() == ResetState(Vocabulary(tokenizer)[wordIdx], tokenizer.pad)
      ensures obs == ObservationOf(State())
    {
      var vocab := gameVocMatrix;
      word := seq(WORD_LENGTH, j requires 0 <= j < WORD_LENGTH reads vocab => vocab[wordIdx, j]);
      assert word == Vocabulary(tokenizer)[wordIdx];
      numTries := 0;
      isRight := new int[MAX_TRIES, WORD_LENGTH]((i, j) => 0);
      guess := new int[MAX_TRIES, WORD_LENGTH]((i, j) => 0);
      forall i, j | 0 <= i < MAX_TRIES && 0 <= j < WORD_LENGTH {
        guess[i, j] := tokenizer.pad;
      }
      RowsOfFilled(guess, tokenizer.pad);
      RowsOfFilled(isRight, EMPTY);
      assert State() == ResetState(word, tokenizer.pad);
      obs := Observe();
    }

    /** Plays guess `action` on row numTries. `nextWordIdx` is the draw the
        self-reset uses when the step ends the episode. */
    method Step(action: Word, nextWordIdx: int) returns (obs: Observation, reward: real, done: bool)
      requires Valid()
      requires |action| == WORD_LENGTH
      requires 0 <= nextWordIdx < |GAME_VOCABULARY|
      modifies this, isRight, guess
      ensures Valid()
      ensures gameVocMatrix == old(gameVocMatrix)
      ensures var o := StepSpec(old(State()), action, Vocabulary(tokenizer)[nextWordIdx], tokenizer.pad);
              State() == o.next && obs == o.obs && reward == o.reward && done == o.done
      ensures done ==> fresh(isRight) && fresh(guess)
      ensures !done ==> isRight == old(isRight) && guess == old(guess)
    {
      ghost var before := State();
      ghost var outcome := StepSpec(before, action, Vocabulary(tokenizer)[nextWordIdx], tokenizer.pad);
      var r := numTries;
      var rightMask := WriteFeedbackRow(isRight, r, word, action);
      WriteGuessRow(guess, r, action);
      AllRightIffSame(word, action);
      reward, done := Count(rightMask) as real / WORD_LENGTH as real, false;
      if All(rightMask) || r == MAX_TRIES - 1 {
        if All(rightMask) {
          reward := 10.0;
        }
        done := true;
        obs := Reset(nextWordIdx);
      } else {
        numTries := numTries + 1;
        NonTerminalStepRows(before, action, Vocabulary(tokenizer)[nextWordIdx], tokenizer.pad);
        StepKeepsHistory(before, action, Vocabulary(tokenizer)[nextWordIdx], tokenizer.pad);
        assert State() == outcome.next;
        obs := Observe();
      }
    }
  }
}
