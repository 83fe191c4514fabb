/**
 * One ultraghost puzzle: three letters, the student who owns it, the word
 * list, the owner's solution and another student's response. Its result is
 * computed from those fields every time it is asked for.
 *
 * As in the Java code, a solution or response of None has not been entered
 * yet and "" means it was skipped.
 */
module Ultraghost {
  import opened Wrappers
  import opened JavaText
  import opened WordResults
  import opened Students

  const DefaultMinimumWordLength := 4

  /**
   * The word list a puzzle checks words against and searches in load order:
   * a list whose contains() is membership, or the stand-in list that
   * contains every word and lists none.
   */
  datatype WordList = Listed(words: seq<string>) | AllWords {
    predicate Contains(word: string) {
      AllWords? || word in words
    }

    function Words(): seq<string> {
      if AllWords? then [] else words
    }
  }

  datatype PuzzleError = NullLetters | NullOwner

  // ----- The match rule -----

  /**
   * The positional rule on a word as given: it ends with the third letter,
   * starts with the first, and the first occurrence of the second letter
   * from index 1 on is before the last character.
   */
  predicate PositionalMatch(letters: string, word: string)
    requires |letters| >= 3 && |word| > 0
  {
    if word[|word| - 1] != letters[2] then false
    else if word[0] != letters[0] then false
    else
      var foundAt := IndexOf(word, letters[1], 1);
      0 < foundAt && foundAt < |word| - 1
  }

  /** The rule restated by positions: last, first, and some inner character. */
  lemma PositionalMatchIff(letters: string, word: string)
    requires |letters| >= 3 && |word| > 0
    ensures PositionalMatch(letters, word) <==>
              word[|word| - 1] == letters[2] && word[0] == letters[0] &&
              exists i :: 1 <= i <= |word| - 2 && word[i] == letters[1]
  {
    IndexOfFirst(word, letters[1], 1);
  }

  /** isMatch: the positional rule on the upper-cased word; the letters are not upper-cased. */
  predicate IsMatch(letters: string, word: string)
    requires |letters| >= 3 && |word| > 0
    ensures IsMatch(letters, word) ==>
              |word| >= 3 && Upper(word)[0] == letters[0] && Upper(word)[|word| - 1] == letters[2]
  {
    PositionalMatchIff(letters, Upper(word));
    PositionalMatch(letters, Upper(word))
  }

  /** The puzzle's rule by positions of the upper-cased word. */
  lemma IsMatchPositional(letters: string, word: string)
    requires |letters| >= 3 && |word| > 0
    ensures IsMatch(letters, word) <==>
              Upper(word)[|word| - 1] == letters[2] && Upper(word)[0] == letters[0] &&
              exists i :: 1 <= i <= |word| - 2 && Upper(word)[i] == letters[1]
  {
    PositionalMatchIff(letters, Upper(word));
  }

  /** A word of one or two characters has no inner character, so never matches. */
  lemma ShortWordsNeverMatch(letters: string, word: string)
    requires |letters| >= 3 && 0 < |word| < 3
    ensures !IsMatch(letters, word)
  {
    IsMatchPositional(letters, word);
  }

  /** The rule does not care whether the word was upper-cased already. */
  lemma IsMatchIgnoresCase(letters: string, word: string)
    requires |letters| >= 3 && |word| > 0
    ensures IsMatch(letters, Upper(word)) == IsMatch(letters, word)
  {
    UpperIdempotent(word);
  }

  // ----- Ranking two valid words -----

  /** challengeWord: how the challenge compares with the solution. */
  function ChallengeWord(solution: string, challenge: string): (r: WordResult)
    ensures r.InEnum() && r.Score() >= 1
    ensures r == NotImproved <==> challenge == solution
  {
    CompareToZero(challenge, solution);
    if |challenge| > |solution| then Longer
    else if |challenge| == |solution| && CompareTo(challenge, solution) > 0 then Later
    else if |challenge| < |solution| then Shorter
    else if challenge == solution then NotImproved
    else Earlier
  }

  /** The ranking: shorter wins, and among equal lengths the earlier word wins. */
  predicate Better(candidate: string, incumbent: string) {
    |candidate| < |incumbent| ||
    (|candidate| == |incumbent| && CompareTo(candidate, incumbent) < 0)
  }

  /** Each of the five outcomes of challengeWord, characterised on its own. */
  lemma ChallengeWordCases(solution: string, challenge: string)
    ensures ChallengeWord(solution, challenge) == Longer <==> |challenge| > |solution|
    ensures ChallengeWord(solution, challenge) == Later <==>
              |challenge| == |solution| && CompareTo(challenge, solution) > 0
    ensures ChallengeWord(solution, challenge) == Shorter <==> |challenge| < |solution|
    ensures ChallengeWord(solution, challenge) == NotImproved <==> challenge == solution
    ensures ChallengeWord(solution, challenge) == Earlier <==>
              |challenge| == |solution| && CompareTo(challenge, solution) < 0
  {
    CompareToZero(challenge, solution);
  }

  /** A word challenged by itself is not improved. */
  lemma ChallengeWordSelf(word: string)
    ensures ChallengeWord(word, word) == NotImproved
  {
    CompareToZero(word, word);
  }

  /**
   * challengeWord agrees with the ranking: Shorter and Earlier mean the
   * challenge ranks better, Longer and Later that the solution does, and
   * NotImproved that neither does.
   */
  lemma ChallengeWordRanks(solution: string, challenge: string)
    ensures ChallengeWord(solution, challenge) in {Shorter, Earlier} <==> Better(challenge, solution)
    ensures ChallengeWord(solution, challenge) in {Longer, Later} <==> Better(solution, challenge)
    ensures ChallengeWord(solution, challenge) == NotImproved <==>
              !Better(challenge, solution) && !Better(solution, challenge)
  {
    CompareToZero(challenge, solution);
    CompareToAntisymmetric(challenge, solution);
  }

  // ----- Checking the solution and the response -----

  /** Null and "" both count as no word in the checks. */
  predicate Blank(word: Option<string>) {
    word.None? || word.value == ""
  }

  /**
   * The letters are read only by isMatch. checkSolution reaches it once
   * the solution is non-blank and listed; with fewer than three letters
   * Java's charAt then throws.
   */
  predicate SolutionCheckDefined(letters: string, wordList: WordList, solution: Option<string>) {
    Blank(solution) || !wordList.Contains(Upper(solution.value)) || |letters| >= 3
  }

  /** checkResponse reaches isMatch once the response is non-blank. */
  predicate ResponseCheckDefined(letters: string, response: Option<string>) {
    Blank(response) || |letters| >= 3
  }

  /** getResult returns without throwing: no solution yet, or the check it runs is defined. */
  predicate ResultDefined(letters: string, wordList: WordList,
                          solution: Option<string>, response: Option<string>) {
    solution.None? ||
    (response.None? && SolutionCheckDefined(letters, wordList, solution)) ||
    (response.Some? && ResponseCheckDefined(letters, response))
  }

  /** checkSolution: skipped, then in the word list, then a match, then long enough. */
  function CheckSolution(letters: string, wordList: WordList, minimumWordLength: int,
                         solution: Option<string>): (r: WordResult)
    requires SolutionCheckDefined(letters, wordList, solution)
    ensures r in {Skipped, NotAWord, NotAMatch, TooShort, Valid}
    ensures r == Valid <==>
              !Blank(solution) && wordList.Contains(Upper(solution.value)) &&
              IsMatch(letters, solution.value) && |solution.value| >= minimumWordLength
  {
    if Blank(solution) then Skipped
    else if !wordList.Contains(Upper(solution.value)) then NotAWord
    else if !IsMatch(letters, solution.value) then NotAMatch
    else if |solution.value| < minimumWordLength then TooShort
    else Valid
  }

  /**
   * checkResponse: skipped, then a match, then in the word list, then long
   * enough, each failure told apart by whether the solution was skipped;
   * then a found word against a skipped solution, else the ranking.
   */
  function CheckResponse(letters: string, wordList: WordList, minimumWordLength: int,
                         solution: Option<string>, response: Option<string>): (r: WordResult)
    requires ResponseCheckDefined(letters, response)
    ensures r.InEnum()
    ensures r == WordFound <==>
              Blank(solution) && !Blank(response) && IsMatch(letters, Upper(response.value)) &&
              wordList.Contains(Upper(response.value)) && |response.value| >= minimumWordLength
  {
    var skipped := Blank(solution);
    if Blank(response) then (if skipped then Skipped else NotImproved)
    else
      var challenge := Upper(response.value);
      if !IsMatch(letters, challenge) then
        (if skipped then ImprovedSkipNotAMatch else ImprovementNotAMatch)
      else if !wordList.Contains(challenge) then
        (if skipped then ImprovedSkipNotAWord else ImprovementNotAWord)
      else if |challenge| < minimumWordLength then
        (if skipped then ImprovedSkipTooShort else ImprovementTooShort)
      else if skipped then WordFound
      else ChallengeWord(Upper(solution.value), challenge)
  }

  /** getResult: unknown until a solution is set, then checkSolution until a response is set. */
  function GetResult(letters: string, wordList: WordList, minimumWordLength: int,
                     solution: Option<string>, response: Option<string>): (r: WordResult)
    requires ResultDefined(letters, wordList, solution, response)
    ensures r.InEnum()
    ensures r == Unknown <==> solution.None?
  {
    if solution.None? then Unknown
    else if response.None? then CheckSolution(letters, wordList, minimumWordLength, solution)
    else CheckResponse(letters, wordList, minimumWordLength, solution, response)
  }

  /**
   * With fewer than three letters getResult still answers wherever isMatch
   * is not reached: UNKNOWN without a solution, SKIPPED or NOT_A_WORD for
   * the solution alone, SKIPPED or NOT_IMPROVED against a blank response.
   */
  lemma ShortLettersResults(letters: string, wordList: WordList, minimumWordLength: int,
                            word: string, response: Option<string>)
    requires |letters| < 3
    ensures GetResult(letters, wordList, minimumWordLength, None, response) == Unknown
    ensures GetResult(letters, wordList, minimumWordLength, Some(""), None) == Skipped
    ensures word != "" && !wordList.Contains(Upper(word)) ==>
              GetResult(letters, wordList, minimumWordLength, Some(word), None) == NotAWord
    ensures GetResult(letters, wordList, minimumWordLength, Some(word), Some("")) ==
              if word == "" then Skipped else NotImproved
  {
  }

  /** isImproved: the response beat the solution, or found a word the owner skipped. */
  predicate IsImprovedResult(result: WordResult) {
    result == Shorter || result == Earlier || result == WordFound
  }

  /**
   * Once a response is set, the result is of the skip family (Skipped, an
   * improved-skip failure, WordFound) exactly when the solution was skipped.
   */
  lemma ResponseResultFamily(letters: string, wordList: WordList, minimumWordLength: int,
                             solution: string, response: Option<string>)
    requires |letters| >= 3 && response.Some?
    ensures var r := GetResult(letters, wordList, minimumWordLength, Some(solution), response);
            (r == Skipped || r.IsImprovedSkipFailure() || r == WordFound) <==> solution == ""
  {
  }

  /**
   * The two checks run in different orders: a word that is neither in the
   * list nor a match is rejected as not a word when it is the solution, but
   * as not a match when it is the response.
   */
  lemma CheckOrderDiffers(letters: string, wordList: WordList, minimumWordLength: int,
                          solution: string, response: string)
    requires |letters| >= 3 && solution != "" && response != ""
    requires !wordList.Contains(Upper(solution)) && !IsMatch(letters, solution)
    requires !wordList.Contains(Upper(response)) && !IsMatch(letters, response)
    ensures GetResult(letters, wordList, minimumWordLength, Some(solution), None) == NotAWord
    ensures GetResult(letters, wordList, minimumWordLength, Some(solution), Some(response)) ==
              ImprovementNotAMatch
    ensures GetResult(letters, wordList, minimumWordLength, Some(""), Some(response)) ==
              ImprovedSkipNotAMatch
  {
    IsMatchIgnoresCase(letters, response);
  }

  /**
   * A response improves the puzzle exactly when it is a non-empty matching
   * word of the list, long enough, and either the solution was skipped or
   * the response ranks better than the solution.
   */
  lemma ImprovedIff(letters: string, wordList: WordList, minimumWordLength: int,
                    solution: string, response: string)
    requires |letters| >= 3
    ensures IsImprovedResult(GetResult(letters, wordList, minimumWordLength, Some(solution), Some(response)))
            <==>
            response != "" && IsMatch(letters, Upper(response)) && wordList.Contains(Upper(response)) &&
            |response| >= minimumWordLength &&
            (solution == "" || Better(Upper(response), Upper(solution)))
  {
    ChallengeWordRanks(Upper(solution), Upper(response));
  }

  /**
   * A result reached by ranking (Longer, Later, Shorter, Earlier or
   * NotImproved) comes from challengeWord on the two upper-cased words.
   */
  lemma RankedResultFromChallenge(letters: string, wordList: WordList, minimumWordLength: int,
                                  solution: Option<string>, response: Option<string>)
    requires |letters| >= 3
    requires GetResult(letters, wordList, minimumWordLength, solution, response) in
               {Longer, Later, Shorter, Earlier}
    ensures solution.Some? && solution.value != "" && response.Some? && response.value != ""
    ensures GetResult(letters, wordList, minimumWordLength, solution, response) ==
              ChallengeWord(Upper(solution.value), Upper(response.value))
  {
  }

  // ----- Searching for a better word -----

  /**
   * Whether `word` improves on `best` for the stand-in puzzle that the search
   * uses: same letters, a word list that contains every word, and the
   * default minimum length.
   */
  predicate Improves(letters: string, best: string, word: string)
    requires |letters| >= 3
  {
    IsImprovedResult(GetResult(letters, AllWords, DefaultMinimumWordLength, Some(best), Some(word)))
  }

  /** The stand-in puzzle accepts a word when it matches, has at least four letters and ranks better. */
  lemma ImprovesIff(letters: string, best: string, word: string)
    requires |letters| >= 3
    ensures Improves(letters, best, word) <==>
              word != "" && IsMatch(letters, Upper(word)) && |word| >= DefaultMinimumWordLength &&
              (best == "" || Better(Upper(word), Upper(best)))
  {
    ImprovedIff(letters, AllWords, DefaultMinimumWordLength, best, word);
  }

  /** A word the search accepts: long enough for this puzzle, and improving. */
  predicate Qualifies(letters: string, minimumWordLength: int, best: string, word: string)
    requires |letters| >= 3
  {
    |word| >= minimumWordLength && Improves(letters, best, word)
  }

  /** The first word of the list that qualifies, or None. */
  function FirstBetter(letters: string, words: seq<string>, minimumWordLength: int,
                       best: string): (r: Option<string>)
    requires |letters| >= 3
    ensures r.Some? ==> r.value in words && Qualifies(letters, minimumWordLength, best, r.value)
  {
    if words == [] then None
    else if Qualifies(letters, minimumWordLength, best, words[0]) then Some(words[0])
    else FirstBetter(letters, words[1..], minimumWordLength, best)
  }

  /**
   * FirstBetter is None exactly when no word qualifies; otherwise it is the
   * word at the first qualifying position.
   */
  lemma {:induction false} FirstBetterIsFirst(letters: string, words: seq<string>,
                                              minimumWordLength: int, best: string)
    requires |letters| >= 3
    ensures var r := FirstBetter(letters, words, minimumWordLength, best);
            (r.None? <==> forall i :: 0 <= i < |words| ==>
                                        !Qualifies(letters, minimumWordLength, best, words[i])) &&
            (r.Some? ==> exists k :: 0 <= k < |words| && words[k] == r.value &&
                                     Qualifies(letters, minimumWordLength, best, words[k]) &&
                                     forall j :: 0 <= j < k ==>
                                                   !Qualifies(letters, minimumWordLength, best, words[j]))
  {
    if words == [] {
    } else if Qualifies(letters, minimumWordLength, best, words[0]) {
      assert FirstBetter(letters, words, minimumWordLength, best) == Some(words[0]);
    } else {
      var rest := words[1..];
      FirstBetterIsFirst(letters, rest, minimumWordLength, best);
      var r := FirstBetter(letters, rest, minimumWordLength, best);
      assert FirstBetter(letters, words, minimumWordLength, best) == r;
      if r.Some? {
        var k :| 0 <= k < |rest| && rest[k] == r.value &&
                 Qualifies(letters, minimumWordLength, best, rest[k]) &&
                 forall j :: 0 <= j < k ==> !Qualifies(letters, minimumWordLength, best, rest[j]);
        assert words[k + 1] == rest[k];
        forall j | 0 <= j < k + 1
          ensures !Qualifies(letters, minimumWordLength, best, words[j])
        {
          if j > 0 { assert words[j] == rest[j - 1]; }
        }
        assert 0 <= k + 1 < |words| && words[k + 1] == r.value;
      } else {
        forall i | 0 <= i < |words|
          ensures !Qualifies(letters, minimumWordLength, best, words[i])
        {
          if i > 0 { assert words[i] == rest[i - 1]; }
        }
      }
    }
  }

  class Puzzle {
    const letters: string
    const owner: Student
    const wordList: WordList
    var solution: Option<string>
    var response: Option<string>
    var hint: Option<string>
    var minimumWordLength: int
    /** Set by the match when letters are carried over (not read by this puzzle). */
    var previousWord: Option<string>
    /** Carried from one puzzle to the next by the match (not read by this puzzle). */
    var paused: bool

    constructor (letters: string, owner: Student, wordList: WordList)
      ensures this.letters == letters && this.owner == owner && this.wordList == wordList
      ensures solution == None && response == None && hint == None
      ensures minimumWordLength == DefaultMinimumWordLength
      ensures previousWord == None && !paused
    {
      this.letters := letters;
      this.owner := owner;
      this.wordList := wordList;
      solution, response, hint := None, None, None;
      minimumWordLength := DefaultMinimumWordLength;
      previousWord, paused := None, false;
    }

    /** The public constructor: null letters, then a null owner, are rejected. */
    static method Create(letters: Option<string>, owner: Student?, wordList: WordList)
      returns (r: Result<Puzzle, PuzzleError>)
      ensures letters.None? ==> r == Failure(NullLetters)
      ensures letters.Some? && owner == null ==> r == Failure(NullOwner)
      ensures letters.Some? && owner != null ==>
                r.Success? && fresh(r.value) && r.value.letters == letters.value &&
                r.value.owner == owner && r.value.wordList == wordList &&
                r.value.solution == None && r.value.response == None && r.value.hint == None &&
                r.value.minimumWordLength == DefaultMinimumWordLength &&
                r.value.previousWord == None && !r.value.paused
    {
      if letters.None? {
        return Failure(NullLetters);
      }
      if owner == null {
        return Failure(NullOwner);
      }
      var p := new Puzzle(letters.value, owner, wordList);
      return Success(p);
    }

    method SetSolution(solution: Option<string>)
      modifies this`solution
      ensures this.solution == solution
    {
      this.solution := solution;
    }

    method SetResponse(response: Option<string>)
      modifies this`response
      ensures this.response == response
    {
      this.response := response;
    }

    method SetHint(hint: Option<string>)
      modifies this`hint
      ensures this.hint == hint
    {
      this.hint := hint;
    }

    method SetMinimumWordLength(minimumWordLength: int)
      modifies this`minimumWordLength
      ensures this.minimumWordLength == minimumWordLength
    {
      this.minimumWordLength := minimumWordLength;
    }

    method SetPreviousWord(previousWord: Option<string>)
      modifies this`previousWord
      ensures this.previousWord == previousWord
    {
      this.previousWord := previousWord;
    }

    method SetPaused(paused: bool)
      modifies this`paused
      ensures this.paused == paused
    {
      this.paused := paused;
    }

    /** getResult is defined for any letters until isMatch is reached. */
    predicate HasResult()
      reads this
    {
      ResultDefined(letters, wordList, solution, response)
    }

    function Result(): (r: WordResult)
      reads this
      requires HasResult()
      ensures r.InEnum()
      ensures r == Unknown <==> solution.None?
    {
      GetResult(letters, wordList, minimumWordLength, solution, response)
    }

    predicate IsImproved()
      reads this
      requires HasResult()
    {
      IsImprovedResult(Result())
    }

    /** The word a hint must beat: the response if it improved, else the solution, upper-cased. */
    function BestSoFar(): string
      reads this
      requires HasResult()
    {
      if IsImproved() then (if response.None? then "" else Upper(response.value))
      else (if solution.None? then "" else Upper(solution.value))
    }

    /**
     * An improved puzzle has a solution and a non-empty response, so the
     * word a hint must beat is the upper-cased response; otherwise it is
     * the upper-cased solution, when there is one.
     */
    lemma BestSoFarWord()
      requires HasResult()
      ensures IsImproved() ==>
                solution.Some? && response.Some? && response.value != "" &&
                BestSoFar() == Upper(response.value) && BestSoFar() != ""
      ensures !IsImproved() && solution.Some? ==> BestSoFar() == Upper(solution.value)
    {
    }

    /**
     * findNextBetter: the first listed word that is long enough for this
     * puzzle and improves on the best word so far, or None.
     */
    method FindNextBetter() returns (r: Option<string>)
      requires |letters| >= 3
      ensures r == FirstBetter(letters, wordList.Words(), minimumWordLength, BestSoFar())
    {
      var bestSoFar :=
        if IsImproved() then (if response == None then "" else Upper(response.value))
        else (if solution == None then "" else Upper(solution.value));
      r := SearchBetter(letters, owner, wordList.Words(), minimumWordLength, bestSoFar);
    }

    /**
     * The loop of findNextBetter: a stand-in puzzle holding the best word
     * so far as its solution is offered each long-enough word in turn as a
     * response, and the first one that improves it is returned.
     */
    static method SearchBetter(letters: string, owner: Student, words: seq<string>,
                               minimumWordLength: int, bestSoFar: string) returns (r: Option<string>)
      requires |letters| >= 3
      ensures r == FirstBetter(letters, words, minimumWordLength, bestSoFar)
    {
      var searchPuzzle := new Puzzle(letters, owner, AllWords);
      searchPuzzle.SetSolution(Some(bestSoFar));
      var i := 0;
      while i < |words|
        invariant 0 <= i <= |words|
        invariant searchPuzzle.letters == letters && searchPuzzle.wordList == AllWords
        invariant searchPuzzle.minimumWordLength == DefaultMinimumWordLength
        invariant searchPuzzle.solution == Some(bestSoFar)
        invariant FirstBetter(letters, words, minimumWordLength, bestSoFar) ==
                  FirstBetter(letters, words[i..], minimumWordLength, bestSoFar)
      {
        var word := words[i];
        assert words[i..][1..] == words[i + 1..];
        if |word| < minimumWordLength {
          i := i + 1;
          continue;
        }
        searchPuzzle.SetResponse(Some(word));
        assert searchPuzzle.IsImproved() == Qualifies(letters, minimumWordLength, bestSoFar, word);
        if searchPuzzle.IsImproved() {
          return Some(word);
        }
        i := i + 1;
      }
      return None;
    }
  }
}
