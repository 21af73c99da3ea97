/** Whole episodes: the outcomes of a run of steps, the turn limit, the guess
    history a run leaves behind, and concrete boards on the game vocabulary. */
module WordleEpisodes {
  import opened Tokenizers
  import opened WordleRules

  /** Every action and every draw is a full word. */
  predicate Playable(actions: seq<Word>, picks: seq<Word>) {
    && |picks| == |actions|
    && (forall i :: 0 <= i < |actions| ==> IsWord(actions[i]))
    && (forall i :: 0 <= i < |picks| ==> IsWord(picks[i]))
  }

  /** The outcome of turn k when `actions` are played one after another from
      `s`; turn k draws `picks[k]` if it ends the episode. */
  function Turn(s: EnvState, actions: seq<Word>, picks: seq<Word>, pad: int, k: nat): (o: StepOutcome)
    requires Inv(s) && Playable(actions, picks) && k < |actions|
    ensures Inv(o.next)
    decreases k
  {
    var before := if k == 0 then s else Turn(s, actions, picks, pad, k - 1).next;
    StepSpec(before, actions[k], picks[k], pad)
  }

  /** The outcomes of playing `actions` one after another from `s`: the first
      step starts from `s`, every later one from the state the previous one
      left. */
  function Play(s: EnvState, actions: seq<Word>, picks: seq<Word>, pad: int): (outs: seq<StepOutcome>)
    requires Inv(s) && Playable(actions, picks)
    ensures |outs| == |actions|
    ensures forall k :: 0 <= k < |outs| ==> Inv(outs[k].next)
    ensures forall k :: 0 <= k < |outs| ==> outs[k] == Turn(s, actions, picks, pad, k)
  {
    seq(|actions|, k requires 0 <= k < |actions| => Turn(s, actions, picks, pad, k))
  }

  /** Every turn of a run keeps the history invariant: played rows hold only
      WRONG and PRESENT, rows from the counter on are untouched. */
  lemma {:induction false} TurnKeepsHistory(s: EnvState, actions: seq<Word>, picks: seq<Word>, pad: int, k: nat)
    requires Inv(s) && Playable(actions, picks) && k < |actions|
    requires History(s, pad)
    ensures History(Turn(s, actions, picks, pad, k).next, pad)
    decreases k
  {
    var before := if k == 0 then s else Turn(s, actions, picks, pad, k - 1).next;
    if k > 0 {
      TurnKeepsHistory(s, actions, picks, pad, k - 1);
    }
    StepKeepsHistory(before, actions[k], picks[k], pad);
  }

  /** Starting from a state with the history invariant, every state a run of
      steps passes through has it too. */
  lemma PlayKeepsHistory(s: EnvState, actions: seq<Word>, picks: seq<Word>, pad: int)
    requires Inv(s) && Playable(actions, picks)
    requires History(s, pad)
    ensures var outs := Play(s, actions, picks, pad);
            forall k :: 0 <= k < |outs| ==> History(outs[k].next, pad)
  {
    var outs := Play(s, actions, picks, pad);
    forall k | 0 <= k < |outs| ensures History(outs[k].next, pad) {
      TurnKeepsHistory(s, actions, picks, pad, k);
    }
  }

  /** None of the actions is the target. */
  predicate NoWin(word: Word, actions: seq<Word>) {
    forall i :: 0 <= i < |actions| ==> actions[i] != word
  }

  /** A turn that misses the target before the last row does not end the
      episode: it keeps the target and leaves the counter at one past the
      number of turns played. */
  lemma {:induction false} MissAdvances(s: EnvState, actions: seq<Word>, picks: seq<Word>, pad: int, k: nat)
    requires Inv(s) && Playable(actions, picks) && k < |actions|
    requires s.numTries + k < MAX_TRIES - 1
    requires NoWin(s.word, actions)
    ensures var o := Turn(s, actions, picks, pad, k);
            !o.done && o.next.word == s.word && o.next.numTries == s.numTries + k + 1
    decreases k
  {
    if k > 0 {
      MissAdvances(s, actions, picks, pad, k - 1);
    }
    assert actions[k] != s.word;
  }

  /** Without a win, the turn that fills the last row ends the episode and
      leaves a fresh episode on its draw. */
  lemma {:induction false} LastTurnEnds(s: EnvState, actions: seq<Word>, picks: seq<Word>, pad: int)
    requires Inv(s) && Playable(actions, picks)
    requires s.numTries + |actions| == MAX_TRIES
    requires NoWin(s.word, actions)
    ensures var o := Turn(s, actions, picks, pad, |actions| - 1);
            o.done && o.next == ResetState(picks[|actions| - 1], pad)
  {
    var last := |actions| - 1;
    if last > 0 {
      var k := |actions| - 2;
      var before := Turn(s, actions, picks, pad, k).next;
      MissAdvances(s, actions, picks, pad, k);
      assert before.numTries == MAX_TRIES - 1;
      assert Turn(s, actions, picks, pad, last) == StepSpec(before, actions[last], picks[last], pad);
    } else {
      assert Turn(s, actions, picks, pad, 0) == StepSpec(s, actions[0], picks[0], pad);
    }
  }

  /** Without a win, the step that fills the last row is the first one to end
      the episode; every earlier step advances the counter by one. */
  lemma {:induction false} TurnLimit(s: EnvState, actions: seq<Word>, picks: seq<Word>, pad: int)
    requires Inv(s) && Playable(actions, picks)
    requires s.numTries + |actions| == MAX_TRIES
    requires NoWin(s.word, actions)
    ensures var outs := Play(s, actions, picks, pad);
            && (forall i :: 0 <= i < |outs| ==> (outs[i].done <==> i == |outs| - 1))
            && (forall i :: 0 <= i < |outs| - 1 ==>
                  outs[i].next.numTries == s.numTries + i + 1 && outs[i].next.word == s.word)
            && outs[|outs| - 1].next == ResetState(picks[|outs| - 1], pad)
  {
    var outs := Play(s, actions, picks, pad);
    var last := |outs| - 1;
    forall i | 0 <= i < last
      ensures !outs[i].done && outs[i].next.numTries == s.numTries + i + 1 && outs[i].next.word == s.word
    {
      MissAdvances(s, actions, picks, pad, i);
    }
    LastTurnEnds(s, actions, picks, pad);
    assert outs[last].done && outs[last].next == ResetState(picks[last], pad);
  }

  /** From a fresh episode, MAX_TRIES guesses that all miss the target end it
      exactly at the last one. */
  lemma {:induction false} FreshEpisodeTurnLimit(word: Word, actions: seq<Word>, picks: seq<Word>, pad: int)
    requires IsWord(word) && Playable(actions, picks)
    requires |actions| == MAX_TRIES && NoWin(word, actions)
    ensures var outs := Play(ResetState(word, pad), actions, picks, pad);
            && (forall i :: 0 <= i < MAX_TRIES - 1 ==> !outs[i].done && outs[i].next.numTries == i + 1)
            && outs[MAX_TRIES - 1].done
            && outs[MAX_TRIES - 1].next == ResetState(picks[MAX_TRIES - 1], pad)
  {
    TurnLimit(ResetState(word, pad), actions, picks, pad);
  }

  /** Grid `g` after rows 0..k of `rows` have been written, one at a time and
      in order, into rows t..t + k: the shape of a run of k + 1 steps that
      do not end the episode. */
  function Written(g: Grid, t: nat, rows: seq<seq<int>>, k: nat): (h: Grid)
    requires k < |rows| && t + k < |g|
    ensures |h| == |g|
    decreases k
  {
    var prior := if k == 0 then g else Written(g, t, rows, k - 1);
    prior[t + k := rows[k]]
  }

  /** Rows t..t + k of the written grid are rows 0..k, in order. */
  lemma {:induction false} WrittenRows(g: Grid, t: nat, rows: seq<seq<int>>, k: nat)
    requires k < |rows| && t + k < |g|
    ensures forall j :: 0 <= j <= k ==> Written(g, t, rows, k)[t + j] == rows[j]
    decreases k
  {
    if k > 0 {
      WrittenRows(g, t, rows, k - 1);
    }
  }

  /** Every row outside t..t + k is the row of `g`. */
  lemma {:induction false} WrittenElsewhere(g: Grid, t: nat, rows: seq<seq<int>>, k: nat)
    requires k < |rows| && t + k < |g|
    ensures forall i :: 0 <= i < |g| && (i < t || t + k < i) ==> Written(g, t, rows, k)[i] == g[i]
    decreases k
  {
    if k > 0 {
      WrittenElsewhere(g, t, rows, k - 1);
    }
  }

  /** The first write: row t becomes rows[0]. */
  lemma WrittenFirst(g: Grid, t: nat, rows: seq<seq<int>>, k: nat, next: Grid)
    requires k == 0 < |rows| && t < |g|
    requires next == g[t := rows[0]]
    ensures next == Written(g, t, rows, k)
  {
  }

  /** Each later write extends the previous grid by row t + k. */
  lemma WrittenNext(g: Grid, t: nat, rows: seq<seq<int>>, j: nat, k: nat, prior: Grid, i: int, next: Grid)
    requires j + 1 == k < |rows| && t + k < |g|
    requires prior == Written(g, t, rows, j) && i == t + k
    requires next == prior[i := rows[k]]
    ensures next == Written(g, t, rows, k)
  {
  }

  /** The feedback rows of the actions against `word`, in order. */
  function Feedbacks(word: Word, actions: seq<Word>): (rows: seq<seq<int>>)
    requires forall i :: 0 <= i < |actions| ==> |actions[i]| == |word|
    ensures |rows| == |actions|
    ensures forall i :: 0 <= i < |actions| ==> rows[i] == FeedbackRow(word, actions[i])
  {
    seq(|actions|, i requires 0 <= i < |actions| => FeedbackRow(word, actions[i]))
  }

  /** The first turn of a run that misses the target before the last
      row writes the guess and its feedback into row num_tries of `s`, and
      changes no other row. */
  lemma FirstMissWritesRow(s: EnvState, actions: seq<Word>, picks: seq<Word>, pad: int)
    requires Inv(s) && Playable(actions, picks) && 0 < |actions|
    requires s.numTries < MAX_TRIES - 1
    requires NoWin(s.word, actions)
    ensures var n := Turn(s, actions, picks, pad, 0).next;
            && n.guess == s.guess[s.numTries := actions[0]]
            && n.isRight == s.isRight[s.numTries := Feedbacks(s.word, actions)[0]]
  {
    NonTerminalStepRows(s, actions[0], picks[0], pad);
  }

  /** A later turn k = j + 1 of such a run writes the guess and its feedback
      into row num_tries + k of the state turn j left, and changes no other
      row. */
  lemma {:induction false} LaterMissWritesRow(s: EnvState, actions: seq<Word>, picks: seq<Word>, pad: int, j: nat, k: nat)
    requires Inv(s) && Playable(actions, picks) && j + 1 == k < |actions|
    requires s.numTries + k < MAX_TRIES - 1
    requires NoWin(s.word, actions)
    ensures var before := Turn(s, actions, picks, pad, j).next;
            var n := Turn(s, actions, picks, pad, k).next;
            && before.numTries == s.numTries + k
            && n.guess == before.guess[before.numTries := actions[k]]
            && n.isRight == before.isRight[before.numTries := Feedbacks(s.word, actions)[k]]
  {
    var before := Turn(s, actions, picks, pad, j).next;
    MissAdvances(s, actions, picks, pad, j);
    NonTerminalStepRows(before, actions[k], picks[k], pad);
  }

  /** After turns 0..k, none of which ends the episode, the guess grid is `s`'s
      with the guesses written into rows num_tries..num_tries + k. */
  lemma {:induction false} GuessesAfterTurn(s: EnvState, actions: seq<Word>, picks: seq<Word>, pad: int, k: nat)
    requires Inv(s) && Playable(actions, picks) && k < |actions|
    requires s.numTries + k < MAX_TRIES - 1
    requires NoWin(s.word, actions)
    ensures Turn(s, actions, picks, pad, k).next.guess == Written(s.guess, s.numTries, actions, k)
    decreases k
  {
    var n := Turn(s, actions, picks, pad, k).next;
    if k == 0 {
      FirstMissWritesRow(s, actions, picks, pad);
      WrittenFirst(s.guess, s.numTries, actions, k, n.guess);
    } else {
      var j := k - 1;
      var before := Turn(s, actions, picks, pad, j).next;
      GuessesAfterTurn(s, actions, picks, pad, j);
      LaterMissWritesRow(s, actions, picks, pad, j, k);
      WrittenNext(s.guess, s.numTries, actions, j, k, before.guess, before.numTries, n.guess);
    }
  }

  /** The same for the feedback grid, with the feedback rows of the guesses. */
  lemma {:induction false} FeedbackAfterTurn(s: EnvState, actions: seq<Word>, picks: seq<Word>, pad: int, k: nat)
    requires Inv(s) && Playable(actions, picks) && k < |actions|
    requires s.numTries + k < MAX_TRIES - 1
    requires NoWin(s.word, actions)
    ensures Turn(s, actions, picks, pad, k).next.isRight
            == Written(s.isRight, s.numTries, Feedbacks(s.word, actions), k)
    decreases k
  {
    var n := Turn(s, actions, picks, pad, k).next;
    if k == 0 {
      FirstMissWritesRow(s, actions, picks, pad);
      WrittenFirst(s.isRight, s.numTries, Feedbacks(s.word, actions), k, n.isRight);
    } else {
      var j := k - 1;
      var before := Turn(s, actions, picks, pad, j).next;
      FeedbackAfterTurn(s, actions, picks, pad, j);
      LaterMissWritesRow(s, actions, picks, pad, j, k);
      WrittenNext(s.isRight, s.numTries, Feedbacks(s.word, actions), j, k, before.isRight, before.numTries, n.isRight);
    }
  }

  /** After turns 0..k of a run that misses the target and stays before the
      last row, row num_tries + j of the guess grid holds guess j. */
  lemma PlayedGuesses(s: EnvState, actions: seq<Word>, picks: seq<Word>, pad: int, k: nat)
    requires Inv(s) && Playable(actions, picks)
    requires k < |actions| && s.numTries + k < MAX_TRIES - 1
    requires NoWin(s.word, actions)
    ensures var b := Turn(s, actions, picks, pad, k).next;
            forall j :: 0 <= j <= k ==> b.guess[s.numTries + j] == actions[j]
  {
    GuessesAfterTurn(s, actions, picks, pad, k);
    WrittenRows(s.guess, s.numTries, actions, k);
  }

  /** The same run leaves the feedback row of guess j in row num_tries + j of
      the feedback grid. */
  lemma PlayedFeedback(s: EnvState, actions: seq<Word>, picks: seq<Word>, pad: int, k: nat)
    requires Inv(s) && Playable(actions, picks)
    requires k < |actions| && s.numTries + k < MAX_TRIES - 1
    requires NoWin(s.word, actions)
    ensures var b := Turn(s, actions, picks, pad, k).next;
            forall j :: 0 <= j <= k ==> b.isRight[s.numTries + j] == FeedbackRow(s.word, actions[j])
  {
    FeedbackAfterTurn(s, actions, picks, pad, k);
    WrittenRows(s.isRight, s.numTries, Feedbacks(s.word, actions), k);
  }

  /** The same run leaves every row outside num_tries to num_tries + k as it
      was. */
  lemma {:induction false} UntouchedRows(s: EnvState, actions: seq<Word>, picks: seq<Word>, pad: int, k: nat)
    requires Inv(s) && Playable(actions, picks)
    requires k < |actions| && s.numTries + k < MAX_TRIES - 1
    requires NoWin(s.word, actions)
    ensures var b := Turn(s, actions, picks, pad, k).next;
            forall i :: 0 <= i < MAX_TRIES && (i < s.numTries || s.numTries + k < i) ==>
              b.guess[i] == s.guess[i] && b.isRight[i] == s.isRight[i]
  {
    GuessesAfterTurn(s, actions, picks, pad, k);
    FeedbackAfterTurn(s, actions, picks, pad, k);
    WrittenElsewhere(s.guess, s.numTries, actions, k);
    WrittenElsewhere(s.isRight, s.numTries, Feedbacks(s.word, actions), k);
  }

  /** After turns 0..k of a run that misses the target and stays before the
      last row, the target is unchanged, the counter has advanced by k + 1,
      rows num_tries to num_tries + k hold the guesses and their feedback rows
      in order, and every other row is as it was. */
  lemma {:induction false} HistoryAfter(s: EnvState, actions: seq<Word>, picks: seq<Word>, pad: int, k: nat)
    requires Inv(s) && Playable(actions, picks)
    requires k < |actions| && s.numTries + k < MAX_TRIES - 1
    requires NoWin(s.word, actions)
    ensures var b := Play(s, actions, picks, pad)[k].next;
            && b.word == s.word && b.numTries == s.numTries + k + 1
            && (forall j :: 0 <= j <= k ==>
                  b.guess[s.numTries + j] == actions[j]
                  && b.isRight[s.numTries + j] == FeedbackRow(s.word, actions[j]))
            && (forall i :: 0 <= i < MAX_TRIES && (i < s.numTries || s.numTries + k < i) ==>
                  b.guess[i] == s.guess[i] && b.isRight[i] == s.isRight[i])
  {
    assert Play(s, actions, picks, pad)[k] == Turn(s, actions, picks, pad, k);
    MissAdvances(s, actions, picks, pad, k);
    PlayedGuesses(s, actions, picks, pad, k);
    PlayedFeedback(s, actions, picks, pad, k);
    UntouchedRows(s, actions, picks, pad, k);
  }

  /** After k + 1 < MAX_TRIES missed guesses from a fresh episode, rows 0..k
      hold exactly those guesses and their feedback, and every later row is
      still pad codes and EMPTY cells. */
  lemma {:induction false} FreshEpisodeHistory(word: Word, actions: seq<Word>, picks: seq<Word>, pad: int, k: nat)
    requires IsWord(word) && Playable(actions, picks)
    requires k < |actions| && k < MAX_TRIES - 1 && NoWin(word, actions)
    ensures var b := Play(ResetState(word, pad), actions, picks, pad)[k].next;
            && b.numTries == k + 1
            && (forall j :: 0 <= j <= k ==>
                  b.guess[j] == actions[j] && b.isRight[j] == FeedbackRow(word, actions[j]))
            && (forall i, p :: k < i < MAX_TRIES && 0 <= p < WORD_LENGTH ==>
                  b.guess[i][p] == pad && b.isRight[i][p] == EMPTY)
  {
    HistoryAfter(ResetState(word, pad), actions, picks, pad, k);
  }

  /** Guessing the target wins at once: reward 10.0, the episode ends, and the
      observation is that of a fresh episode. */
  lemma WinEndsEpisode(s: EnvState, pick: Word, pad: int)
    requires Inv(s) && IsWord(pick)
    ensures var o := StepSpec(s, s.word, pick, pad);
            o.done && o.reward == 10.0 && o.next == ResetState(pick, pad)
            && o.obs == Observation(Filled(pad), Filled(EMPTY))
  {
  }

  // ---------------------------------------------------------------------
  // Boards on letters
  // ---------------------------------------------------------------------

  /** The feedback rule stated on letters: PRESENT where the target's letter
      occurs in the guess, WRONG elsewhere. */
  function LetterFeedback(target: string, guessed: string): seq<int> {
    seq(|target|, p requires 0 <= p < |target| => if target[p] in guessed then PRESENT else WRONG)
  }

  /** Under an injective tokenizer the feedback on codes is the feedback on
      letters. */
  lemma FeedbackOnLetters(tok: Tokenizer, target: string, guessed: string)
    requires tok.Injective() && tok.Covers(target) && tok.Covers(guessed)
    requires |target| == |guessed|
    ensures |tok.Encode(target)| == |tok.Encode(guessed)|
    ensures FeedbackRow(tok.Encode(target), tok.Encode(guessed)) == LetterFeedback(target, guessed)
  {
    var row := FeedbackRow(tok.Encode(target), tok.Encode(guessed));
    FeedbackCells(tok.Encode(target), tok.Encode(guessed));
    forall p | 0 <= p < |target| ensures row[p] == LetterFeedback(target, guessed)[p] {
      tok.EncodedMembership(target, guessed, p);
    }
  }

  /** Target "crane", guess "plate": only the 'a' and the 'e' of the target
      occur in the guess, so positions 2 and 4 are PRESENT although both are
      exact matches; the two exact matches give reward 2/5. */
  lemma CranePlate(tok: Tokenizer)
    requires tok.Injective() && tok.Covers("crane") && tok.Covers("plate")
    ensures IsWord(tok.Encode("crane")) && IsWord(tok.Encode("plate"))
    ensures FeedbackRow(tok.Encode("crane"), tok.Encode("plate")) == [WRONG, WRONG, PRESENT, WRONG, PRESENT]
    ensures Reward(tok.Encode("crane"), tok.Encode("plate")) == 0.4
  {
    var t, g := tok.Encode("crane"), tok.Encode("plate");
    assert LetterFeedback("crane", "plate") == [WRONG, WRONG, PRESENT, WRONG, PRESENT];
    FeedbackOnLetters(tok, "crane", "plate");
    assert RightMask(t, g) == [false, false, true, false, true] by {
      forall p | 0 <= p < 5 ensures t[p] == g[p] <==> "crane"[p] == "plate"[p] {
        tok.EncodedEqualAt("crane", "plate", p);
      }
    }
    assert Count([false, false, true, false, true]) == 2;
  }

  /** The same board as one step of the game: "plate" played on a fresh
      episode with target "crane" is not done, advances the counter to 1,
      writes "plate" and the row [1, 1, 3, 1, 3] into row 0, and pays 0.4. */
  lemma CranePlateStep(tok: Tokenizer, pick: Word, pad: int)
    requires tok.Injective() && tok.Covers("crane") && tok.Covers("plate") && IsWord(pick)
    ensures IsWord(tok.Encode("crane")) && IsWord(tok.Encode("plate"))
    ensures var o := StepSpec(ResetState(tok.Encode("crane"), pad), tok.Encode("plate"), pick, pad);
            && !o.done && o.reward == 0.4 && o.next.numTries == 1
            && o.next.guess[0] == tok.Encode("plate")
            && o.next.isRight[0] == [WRONG, WRONG, PRESENT, WRONG, PRESENT]
  {
    var s := ResetState(tok.Encode("crane"), pad);
    CranePlate(tok);
    NonTerminalStepRows(s, tok.Encode("plate"), pick, pad);
  }

  /** Target "sword", guess "crane": feedback is indexed by TARGET positions,
      so it is position 3 (the target's 'r') that is PRESENT, not position 1
      where the guess has its 'r'; no exact match, reward 0. */
  lemma SwordCrane(tok: Tokenizer)
    requires tok.Injective() && tok.Covers("sword") && tok.Covers("crane")
    ensures IsWord(tok.Encode("sword")) && IsWord(tok.Encode("crane"))
    ensures FeedbackRow(tok.Encode("sword"), tok.Encode("crane")) == [WRONG, WRONG, WRONG, PRESENT, WRONG]
    ensures Reward(tok.Encode("sword"), tok.Encode("crane")) == 0.0
  {
    var t, g := tok.Encode("sword"), tok.Encode("crane");
    assert LetterFeedback("sword", "crane") == [WRONG, WRONG, WRONG, PRESENT, WRONG];
    FeedbackOnLetters(tok, "sword", "crane");
    assert RightMask(t, g) == [false, false, false, false, false] by {
      forall p | 0 <= p < 5 ensures t[p] == g[p] <==> "sword"[p] == "crane"[p] {
        tok.EncodedEqualAt("sword", "crane", p);
      }
    }
    assert Count([false, false, false, false, false]) == 0;
  }
}
