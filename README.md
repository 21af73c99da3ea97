# Wordle reinforcement-learning environment, modelled in Dafny

This project models the game engine of `wordle_env.py`, the `WordleEnv`
environment. An episode has a hidden target word, a try counter
`num_tries`, and two MAX_TRIES x WORD_LENGTH (6 x 5) integer grids. `guess`
holds the guessed letter codes and starts as the pad code. `is_right` holds
the feedback cells and starts as 0 (empty). `reset` picks a target from the
fixed vocabulary and clears both grids. `step` writes one row of feedback and
one row of guesses, computes the reward, and then either advances the counter
or ends the episode. A step that ends the episode resets the environment
before it returns.

The feedback rule is modelled as the code computes it. Ordinary Wordle is
different:

- Every cell of the row is first set to 1 (wrong).
- Cells where the guess matches the target exactly are set to 2 (right).
- The "present" mask is then computed over the TARGET's positions: p is
  marked when `word[p]` occurs anywhere in the guess. Those cells become 3.
- An exact match always passes that membership test, so every 2 is
  overwritten. A played row only ever holds 1 and 3.
- The reward still counts exact matches: k/5, or 10.0 when all five match.

Layout:

- `tokenizer.dfy` (module `Tokenizers`): the letter-to-code table, kept
  opaque. It is a finite map from letters to codes plus the pad code.
- `wordle_rules.dfy` (module `WordleRules`): the constants, the vocabulary
  matrix, the feedback row, the reward, and the episode as a value
  (`EnvState`) with `ResetState` and `StepSpec`.
- `wordle_env.dfy` (module `WordleEnvironment`): the class `WordleEnv`.
  Its fields are `array2<int>` grids, the counter and the target. The
  masked numpy assignments of `step` become `forall` statements on the
  arrays. `reset` allocates fresh arrays. `Reset` and `Step` are proved to follow
  `ResetState`/`StepSpec`; the vocabulary loops are proved against
  `Vocabulary`, the tokenizer's code for each letter.
- `wordle_episodes.dfy` (module `WordleEpisodes`): runs of several steps
  (`Play`). It proves the turn limit, the history invariant along a run,
  the guess history after a run, the
  win case, and concrete boards ("crane"/"plate", "sword"/"crane").

The random draw of `np.random.randint` is a caller-supplied index into the
vocabulary. `Step` takes the index its self-reset would draw. Rewards are
Dafny `real` values; they are exactly k/5 or 10.0.

The value-level `StepSpec` tests `action == word` where the code tests
`right_mask.all()`; `AllRightIffSame` proves the two agree, and the class
method `Step` keeps the code's own test on the mask.

## Model

| member | source | states |
|---|---|---|
| WordleRules.Vocabulary | wordle_env.py:39-42 | The matrix has one row per vocabulary word, each WORD_LENGTH long; cell (i, j) is the tokenizer's code for letter j of word i |
| WordleEnvironment.WordleEnv.InitializeVocabulary | wordle_env.py:36-42 | The nested loops leave a fresh len(GAME_VOCABULARY) x WORD_LENGTH matrix whose cell (i, j) is the code of letter j of vocabulary word i; counter, target and grids untouched |
| WordleRules.FeedbackRow | wordle_env.py:80-84 | The feedback row has one cell per target position (its contents are stated by `FeedbackCells`) |
| WordleRules.FeedbackCells | wordle_env.py:80-84 | After the three masked writes, cell p is 3 exactly when the target's code at p occurs in the guess and 1 exactly when it does not; an exact match ends as 3; no cell is 2 or 0 |
| WordleEnvironment.WriteFeedbackRow | wordle_env.py:80-84 | The three masked writes on the array change row num_tries, and only it, into `FeedbackRow` of target and guess; the returned mask is the exact-match mask |
| WordleEnvironment.WriteGuessRow | wordle_env.py:86 | Row num_tries of the guess array becomes the action; every other row is unchanged |
| WordleRules.Count | wordle_env.py:88-89 | The sum of a boolean mask is at most its length, and equals its length exactly when every entry holds (`sum` versus `all`) |
| WordleRules.AllRightIffSame | wordle_env.py:81-89 | The exact-match mask is all true if and only if the guess equals the target |
| WordleRules.Reward | wordle_env.py:88-91 | The reward is 10.0 if and only if the guess is the target; otherwise reward x WORD_LENGTH is the number of exact matches and 0 <= reward < 1 |
| WordleRules.ResetState | wordle_env.py:48-57 | A reset state keeps the shape and bound invariant and the history invariant, with counter 0, every guess cell the pad code and every feedback cell 0 |
| WordleRules.StepSpec | wordle_env.py:75-98 | A step keeps 0 <= num_tries < MAX_TRIES and the shapes; done iff the guess is the target or num_tries was MAX_TRIES - 1; done leaves exactly a reset state on the draw; otherwise the target is kept and the counter grows by one; the reward is `Reward`; the observation is the new state's grids |
| WordleRules.NonTerminalStepRows | wordle_env.py:80-95 | A step that is not done leaves both grids equal to the old ones with row num_tries replaced by the guess and by its feedback row |
| WordleRules.StepKeepsHistory | wordle_env.py:80-95 | Every step keeps the history invariant: rows before the counter hold only 1 and 3, rows from the counter on are still pad codes and 0 |
| WordleEnvironment.WordleEnv.constructor | wordle_env.py:19-34 | Building the environment fills a newly allocated vocabulary matrix and leaves a valid, freshly reset episode on the drawn word, with newly allocated grids that the caller may then step |
| WordleEnvironment.WordleEnv.Reset | wordle_env.py:44-58 | Reset allocates fresh grids; the target is row wordIdx of the vocabulary matrix; the state is exactly `ResetState` on that word; the object invariant holds; the observation is the new grids |
| WordleEnvironment.WordleEnv.Step | wordle_env.py:60-98 | Step keeps the object invariant, including the bound that makes the row write in range; the new state, observation, reward and done flag are exactly those of `StepSpec` on the old state; a terminal step leaves freshly allocated grids and a non-terminal one updates the old arrays in place |
| WordleEnvironment.WordleEnv.Observe | wordle_env.py:96 | In a valid environment the observation is both grids of the current state: two MAX_TRIES x WORD_LENGTH grids whose rows below num_tries hold only 1 and 3 and whose rows from num_tries on are still the pad code and 0 |
| WordleEpisodes.Turn | wordle_env.py:60-98 | Turn k of a run starts from the state turn k - 1 left (from the initial state for k = 0), and every state it leaves satisfies the episode invariant |
| WordleEpisodes.TurnKeepsHistory | wordle_env.py:80-96 | Every turn of a run, terminal or not, keeps the history invariant: rows below the counter hold only 1 and 3, rows from it on are still pad codes and 0 |
| WordleEpisodes.PlayKeepsHistory | wordle_env.py:60-98 | Every state a run of steps passes through, from a state with the history invariant, has the history invariant |
| WordleEpisodes.MissAdvances | wordle_env.py:89-95 | A missed guess before the last row is not done, keeps the target, and leaves the counter one past the number of turns played |
| WordleEpisodes.LastTurnEnds | wordle_env.py:89-93 | Without a win, the turn that fills row MAX_TRIES - 1 is done and leaves a reset state on its draw |
| WordleEpisodes.TurnLimit | wordle_env.py:89-95 | With no winning guess, a step is done if and only if it is the one that fills the last row; each earlier step advances the counter by one on the same target; the last leaves a reset state |
| WordleEpisodes.FreshEpisodeTurnLimit | wordle_env.py:89-95 | From a fresh episode, MAX_TRIES missed guesses are not done for the first MAX_TRIES - 1 and done at the last one |
| WordleEpisodes.GuessesAfterTurn | wordle_env.py:86-95 | After turns 0..k that all miss before the last row, the guess grid is the initial one with the guesses written, in order, into rows num_tries..num_tries + k |
| WordleEpisodes.FeedbackAfterTurn | wordle_env.py:80-95 | The same for the feedback grid, with the feedback rows of the guesses |
| WordleEpisodes.PlayedGuesses | wordle_env.py:86-95 | After such turns 0..k, row num_tries + j of the guess grid holds guess j, for every j <= k |
| WordleEpisodes.PlayedFeedback | wordle_env.py:80-95 | After such turns 0..k, row num_tries + j of the feedback grid holds the feedback row of guess j, for every j <= k |
| WordleEpisodes.UntouchedRows | wordle_env.py:80-95 | After such turns 0..k, every row outside num_tries..num_tries + k is as it was in both grids |
| WordleEpisodes.HistoryAfter | wordle_env.py:80-95 | After turn k of a run that misses before the last row, the target is kept, the counter has grown by k + 1, rows num_tries..num_tries + k hold the guesses and their feedback rows in order, and all other rows are unchanged |
| WordleEpisodes.FreshEpisodeHistory | wordle_env.py:51-95 | After k + 1 < MAX_TRIES missed guesses from reset, rows 0..k are those guesses and their feedback and every later row is still pad codes and 0 |
| WordleEpisodes.WinEndsEpisode | wordle_env.py:88-93 | Guessing the target gives reward 10.0 and done, and the state and observation are those of a freshly reset episode |
| WordleEpisodes.FeedbackOnLetters | wordle_env.py:80-84 | Under an injective tokenizer, the feedback on codes equals the letter-level rule (3 where the target's letter occurs in the guess, 1 elsewhere) |
| WordleEpisodes.CranePlate | wordle_env.py:80-91 | Target "crane", guess "plate": row [1, 1, 3, 1, 3] and reward 0.4, although positions 2 and 4 are exact matches |
| WordleEpisodes.CranePlateStep | wordle_env.py:80-96 | One step of "plate" on a fresh episode with target "crane" is not done, leaves the counter at 1, writes "plate" and [1, 1, 3, 1, 3] into row 0, and pays 0.4 |
| WordleEpisodes.SwordCrane | wordle_env.py:83-88 | Target "sword", guess "crane": row [1, 1, 1, 3, 1]; the mark falls on the target's 'r' (position 3), not the guess's (position 1); reward 0 |

## Left out

- `render` (wordle_env.py:100-114): terminal output and colouring only. Its green branch tests for the value 2, which `FeedbackCells` shows never survives in a played row.
- The `__main__` driver (wordle_env.py:117-133): it uses a vectorised wrapper from a module that is not part of this model, `time.sleep` and an endless loop.
- `action_space` / `observation_space` (wordle_env.py:31-33): library declarations with no behaviour.
- Tokenizer internals (wordle_env.py:8, 27): the tokenizer module is not part of this model. It is an opaque `map<char, int>`. The code stored under the `'<PAD>'` key is a separate `pad` field. The environment builds its own tokenizer; here it is a constructor parameter.
- WordleEnvironment.WordleEnv.InitializeVocabulary: a letter with no code raises `KeyError` in the source. Here it is excluded by the precondition that the tokenizer covers the vocabulary.
- Random seeding and sampling (wordle_env.py:45-48): the `seed` argument and numpy's global generator are not modelled. The index `randint` would return is a parameter, so reproducibility is not captured.
- WordleEnvironment.WordleEnv.Step: the length and one-dimensionality assertions (wordle_env.py:75-76) are a precondition. The `AssertionError` path is not modelled, and a sequence is one-dimensional by construction.
- The `info` dictionary (wordle_env.py:78) and `EMBEDDING_DIM` (wordle_env.py:14): unused.
- Floating point: the reward is a `real`, so the binary rounding of k/5 is not modelled.
- Integer width: the grids are `int32` in the source and Dafny's `int` is unbounded. Codes, pad and feedback values are small. Action values are assumed to lie in `int32` range (the action space of wordle_env.py:31 is 0..25): the source never checks the range (lines 75-76 check only shape and length), and numpy's cast when line 86 stores the action is not modelled, while lines 81 and 83 compare the uncast value.
- Aliasing of the target: the source keeps `word` as a numpy view of a row of the vocabulary matrix. The model keeps a copy. Nothing writes through either, so only the aliasing itself is not captured.
