/**
 * A match between students: the order of turns is shuffled once, each new
 * puzzle goes to the next student in that order, the hyperghost rule may
 * carry the letters and a word over from the previous puzzle, and a winner
 * is declared from the scores.
 *
 * The match's random source is reduced to the choices it returned: the
 * starting-student choices and the freshly generated letters are parameters.
 */
module Matches {
  import opened Wrappers
  import opened JavaText
  import opened WordResults
  import opened Students
  import opened Ultraghost

  const DefaultMatchMinimumWordLength := 4

  // ----- Shuffling the students -----

  /** The sequence with the elements at i and j exchanged. */
  function Swap<T>(s: seq<T>, i: nat, j: nat): (r: seq<T>)
    requires i < |s| && j < |s|
    ensures |r| == |s| && r[i] == s[j] && r[j] == s[i]
    ensures forall k :: 0 <= k < |s| && k != i && k != j ==> r[k] == s[k]
  {
    s[i := s[j]][j := s[i]]
  }

  lemma SwapPermutes<T>(s: seq<T>, i: nat, j: nat)
    requires i < |s| && j < |s|
    ensures multiset(Swap(s, i, j)) == multiset(s)
  {
  }

  /** Each choice for position i picks one of the n - i students not yet placed. */
  predicate ChoicesFit(choices: seq<int>, n: int) {
    |choices| >= n - 1 && forall i :: 0 <= i < n - 1 ==> 0 <= choices[i] < n - i
  }

  /** The order after the first k swaps of checkStudentOrder. */
  function Shuffled<T>(s: seq<T>, choices: seq<int>, k: nat): (r: seq<T>)
    requires ChoicesFit(choices, |s|) && (k == 0 || k < |s|)
    ensures |r| == |s|
  {
    if k == 0 then s
    else Swap(Shuffled(s, choices, k - 1), k - 1, k - 1 + choices[k - 1])
  }

  /** The shuffle only reorders the students. */
  lemma {:induction false} ShuffledIsPermutation<T>(s: seq<T>, choices: seq<int>, k: nat)
    requires ChoicesFit(choices, |s|) && (k == 0 || k < |s|)
    ensures multiset(Shuffled(s, choices, k)) == multiset(s)
  {
    if k > 0 {
      ShuffledIsPermutation(s, choices, k - 1);
      var prev := Shuffled(s, choices, k - 1);
      assert 0 <= choices[k - 1] < |s| - (k - 1);
      SwapPermutes(prev, k - 1, k - 1 + choices[k - 1]);
      assert Shuffled(s, choices, k) == Swap(prev, k - 1, k - 1 + choices[k - 1]);
    }
  }

  /** The student placed first, who owns the first puzzle, is the one the first choice picked. */
  lemma {:induction false} ShuffledFirst<T>(s: seq<T>, choices: seq<int>, k: nat)
    requires ChoicesFit(choices, |s|) && 0 < k < |s|
    ensures Shuffled(s, choices, k)[0] == s[choices[0]]
  {
    if k > 1 {
      ShuffledFirst(s, choices, k - 1);
    }
  }

  /** The number of swaps the shuffle makes for n students. */
  function LastPosition(n: nat): nat {
    if n == 0 then 0 else n - 1
  }

  // ----- Turn order -----

  /** The owner index of the next puzzle: after the shuffle the index restarts from the last student. */
  function NextOwnerIndex(n: int, index: int): (r: int)
    requires n > 0
    ensures 0 <= r < n
    ensures 0 <= index < n - 1 ==> r == index + 1
    ensures index < 0 || index == n - 1 ==> r == 0
  {
    ((if index < 0 then n - 1 else index) + 1) % n
  }

  /** The owner index after k puzzles of a fresh match. */
  function OwnerIndexAfter(n: int, k: nat): int
    requires n > 0
  {
    if k == 0 then IntMin else NextOwnerIndex(n, OwnerIndexAfter(n, k - 1))
  }

  /** Division with a remainder in [0, n) is unique. */
  lemma ModUnique(x: int, n: int, q: int, r: int)
    requires n > 0 && 0 <= r < n && x == q * n + r
    ensures x % n == r
  {
    var q', r' := x / n, x % n;
    assert x == q' * n + r';
    assert (q - q') * n == r' - r;
    if q - q' >= 1 {
      assert false;
    } else if q - q' <= -1 {
      assert false;
    }
  }

  /** Counting on from a remainder is counting on from the number. */
  lemma ModSucc(a: int, n: int)
    requires n > 0 && a >= 0
    ensures (a % n + 1) % n == (a + 1) % n
  {
    var q, r := a / n, a % n;
    assert a == q * n + r;
    if r + 1 < n {
      ModUnique(a + 1, n, q, r + 1);
      ModUnique(r + 1, n, 0, r + 1);
    } else {
      assert a + 1 == (q + 1) * n + 0;
      ModUnique(a + 1, n, q + 1, 0);
      ModUnique(r + 1, n, 1, 0);
    }
  }

  /** Owners rotate through the shuffled order: puzzle k (from 1) goes to student (k - 1) mod n. */
  lemma {:induction false} OwnersRotate(n: int, k: nat)
    requires n > 0 && k >= 1
    ensures OwnerIndexAfter(n, k) == (k - 1) % n
  {
    if k > 1 {
      OwnersRotate(n, k - 1);
      ModSucc(k - 2, n);
    } else {
      ModUnique(n, n, 1, 0);
    }
  }

  // ----- The hyperghost rule -----

  /** Results that end a hyperghost run of the same letters. */
  predicate EndsRun(result: WordResult) {
    result == SkipNotImproved || result == ImprovedSkipNotAWord ||
    result == ImprovedSkipTooSoon || result == ImprovedSkipTooShort
  }

  /**
   * Fresh letters are drawn when there is no previous puzzle, when the
   * match is not hyperghost, or when the previous result ends the run.
   */
  predicate StartsFresh(previous: Option<WordResult>, isHyperghost: bool) {
    previous.None? || !isHyperghost || EndsRun(previous.value)
  }

  /**
   * Two of the run-ending results are not enum constants, so the result of
   * an ultraghost puzzle ends a run only as an improved-skip failure for
   * not a word or too short.
   */
  lemma EndsRunOfPuzzle(p: Puzzle)
    requires p.HasResult()
    ensures EndsRun(p.Result()) <==> p.Result() in {ImprovedSkipNotAWord, ImprovedSkipTooShort}
  {
  }

  /** The word carried to the next puzzle: the response after Longer, Later or WordFound, else the solution. */
  function CarriedWord(result: WordResult, solution: Option<string>, response: Option<string>): Option<string> {
    if result == Longer || result == Later || result == WordFound then response else solution
  }

  /**
   * When both words were entered and the result ranks them, the word
   * carried over is never the better-ranked one: the next player has to
   * beat the worse word.
   */
  lemma CarriedWordIsNotBetter(letters: string, wordList: WordList, minimumWordLength: int,
                               solution: string, response: string)
    requires |letters| >= 3
    requires GetResult(letters, wordList, minimumWordLength, Some(solution), Some(response)) in
               {Longer, Later, Shorter, Earlier}
    ensures var result := GetResult(letters, wordList, minimumWordLength, Some(solution), Some(response));
            var carried := CarriedWord(result, Some(solution), Some(response)).value;
            var other := if carried == response then solution else response;
            !Better(Upper(carried), Upper(other))
  {
    var result := GetResult(letters, wordList, minimumWordLength, Some(solution), Some(response));
    RankedResultFromChallenge(letters, wordList, minimumWordLength, Some(solution), Some(response));
    ChallengeWordRanks(Upper(solution), Upper(response));
    CompareToAntisymmetric(Upper(solution), Upper(response));
  }

  // ----- Deciding the winner -----

  /**
   * The accumulators of getWinner's loop (best student, best score, score
   * count, tie flag), or Uneven once it has returned null for an uneven
   * score count.
   */
  datatype WinnerScan = Scanning(best: Option<nat>, bestScore: int, scoreCount: int, isTie: bool) | Uneven

  /**
   * One iteration of getWinner's loop for student i. With `fixed` false it
   * is the loop as written, where the tie flag is overwritten by every
   * student that does not lead; with `fixed` true a new leader clears the
   * flag and a later lower score keeps it.
   */
  function WinnerStep(acc: WinnerScan, i: nat, score: int, count: int, fixed: bool): WinnerScan {
    if acc.Uneven? then Uneven
    else if acc.best.Some? && count != acc.scoreCount then Uneven
    else
      var scoreCount := if acc.best.None? then count else acc.scoreCount;
      if score > acc.bestScore then
        Scanning(Some(i), score, scoreCount, if fixed then false else acc.isTie)
      else
        Scanning(acc.best, acc.bestScore, scoreCount,
                 if fixed then acc.isTie || score == acc.bestScore else score == acc.bestScore)
  }

  /** The accumulators after the first k students. */
  function ScanWinner(scores: seq<int>, counts: seq<int>, k: nat, fixed: bool): (r: WinnerScan)
    requires |scores| == |counts| && k <= |scores|
    ensures r.Scanning? && r.best.Some? ==> r.best.value < k && r.bestScore == scores[r.best.value]
    ensures r.Scanning? ==> forall j :: 0 <= j < k ==> scores[j] <= r.bestScore
  {
    if k == 0 then Scanning(None, IntMin, IntMin, false)
    else WinnerStep(ScanWinner(scores, counts, k - 1, fixed), k - 1, scores[k - 1], counts[k - 1], fixed)
  }

  /** The final test: no tie and a best score reaching the match score. */
  function Decide(acc: WinnerScan, matchScore: int): Option<nat> {
    if acc.Uneven? then None
    else if !acc.isTie && acc.bestScore >= matchScore then acc.best
    else None
  }

  /** getWinner as written: the index of the winning student, or None for null. */
  function WinnerAsWritten(scores: seq<int>, counts: seq<int>, matchScore: int): (r: Option<nat>)
    requires |scores| == |counts|
    ensures r.Some? ==> r.value < |scores| && scores[r.value] >= matchScore &&
                        forall j :: 0 <= j < |scores| ==> scores[j] <= scores[r.value]
  {
    Decide(ScanWinner(scores, counts, |scores|, false), matchScore)
  }

  /** getWinner with the tie flag kept correctly. */
  function WinnerFixed(scores: seq<int>, counts: seq<int>, matchScore: int): (r: Option<nat>)
    requires |scores| == |counts|
    ensures r.Some? ==> r.value < |scores| && scores[r.value] >= matchScore &&
                        forall j :: 0 <= j < |scores| ==> scores[j] <= scores[r.value]
  {
    Decide(ScanWinner(scores, counts, |scores|, true), matchScore)
  }

  /**
   * Once the first student leads (its score is above Integer.MIN_VALUE),
   * the loop has given up exactly when some count so far differs from the
   * first student's, and otherwise it has a leader among the first k.
   */
  lemma {:induction false} ScanWinnerCounts(scores: seq<int>, counts: seq<int>, k: nat, fixed: bool)
    requires |scores| == |counts| && 1 <= k <= |scores| && scores[0] > IntMin
    ensures var acc := ScanWinner(scores, counts, k, fixed);
            (acc.Uneven? <==> exists j :: 0 <= j < k && counts[j] != counts[0]) &&
            (acc.Scanning? ==> acc.best.Some? && acc.best.value < k && acc.scoreCount == counts[0])
  {
    if k > 1 {
      ScanWinnerCounts(scores, counts, k - 1, fixed);
    }
  }

  /** getWinner returns null whenever some student's score count differs from the first student's. */
  lemma UnevenCountsHaveNoWinner(scores: seq<int>, counts: seq<int>, matchScore: int, j: nat)
    requires |scores| == |counts| && j < |counts| && scores[0] > IntMin
    requires counts[j] != counts[0]
    ensures WinnerAsWritten(scores, counts, matchScore) == None
    ensures WinnerFixed(scores, counts, matchScore) == None
  {
    ScanWinnerCounts(scores, counts, |scores|, false);
    ScanWinnerCounts(scores, counts, |scores|, true);
  }

  /**
   * With two students and equal counts, the winner is the strictly higher
   * scorer when that score reaches the match score, and there is none
   * otherwise.
   */
  lemma TwoStudentWinner(scores: seq<int>, counts: seq<int>, matchScore: int)
    requires |scores| == 2 && |counts| == 2 && counts[0] == counts[1]
    requires scores[0] > IntMin && scores[1] > IntMin
    ensures WinnerAsWritten(scores, counts, matchScore) == Some(0) <==>
              scores[0] > scores[1] && scores[0] >= matchScore
    ensures WinnerAsWritten(scores, counts, matchScore) == Some(1) <==>
              scores[1] > scores[0] && scores[1] >= matchScore
    ensures WinnerAsWritten(scores, counts, matchScore).None? <==>
              scores[0] == scores[1] || (scores[0] < matchScore && scores[1] < matchScore)
  {
    assert ScanWinner(scores, counts, 1, false) == Scanning(Some(0), scores[0], counts[0], false);
  }

  /**
   * Two inputs on which the loop as written differs from "the unique
   * highest scorer": a tie at 5 followed by a clear leader at 7 is still
   * flagged as a tie, and a tie at 7 followed by a lower 3 is forgotten.
   */
  lemma WinnerAsWrittenMisjudgesTies()
    ensures WinnerAsWritten([5, 5, 7], [1, 1, 1], 0) == None
    ensures WinnerFixed([5, 5, 7], [1, 1, 1], 0) == Some(2)
    ensures WinnerAsWritten([7, 7, 3], [1, 1, 1], 0) == Some(0)
    ensures WinnerFixed([7, 7, 3], [1, 1, 1], 0) == None
  {
    assert ScanWinner([5, 5, 7], [1, 1, 1], 1, false) == Scanning(Some(0), 5, 1, false);
    assert ScanWinner([5, 5, 7], [1, 1, 1], 1, true) == Scanning(Some(0), 5, 1, false);
    assert ScanWinner([7, 7, 3], [1, 1, 1], 1, false) == Scanning(Some(0), 7, 1, false);
    assert ScanWinner([7, 7, 3], [1, 1, 1], 1, true) == Scanning(Some(0), 7, 1, false);
  }

  /** The corrected loop's state after the first k students, when the counts agree. */
  predicate LeaderSoFar(scores: seq<int>, k: nat, acc: WinnerScan)
    requires k <= |scores|
  {
    acc.Scanning? && acc.best.Some? && acc.best.value < k &&
    acc.bestScore == scores[acc.best.value] &&
    (forall j :: 0 <= j < k ==> scores[j] <= acc.bestScore) &&
    (acc.isTie <==> exists j :: 0 <= j < k && j != acc.best.value && scores[j] == acc.bestScore)
  }

  lemma {:induction false} ScanWinnerFixedLeader(scores: seq<int>, counts: seq<int>, k: nat)
    requires |scores| == |counts| && 1 <= k <= |scores|
    requires forall j :: 0 <= j < |scores| ==> scores[j] > IntMin && counts[j] == counts[0]
    ensures LeaderSoFar(scores, k, ScanWinner(scores, counts, k, true))
  {
    if k > 1 {
      ScanWinnerFixedLeader(scores, counts, k - 1);
      var acc := ScanWinner(scores, counts, k - 1, true);
      var s := scores[k - 1];
      if s > acc.bestScore {
        assert forall j :: 0 <= j < k - 1 ==> scores[j] < s;
      }
    }
  }

  /** Whatever the tie flag does, the leader after k students is the first highest score among them. */
  predicate LeadsSoFar(scores: seq<int>, k: nat, acc: WinnerScan)
    requires k <= |scores|
  {
    acc.Scanning? && acc.best.Some? && acc.best.value < k &&
    acc.bestScore == scores[acc.best.value] &&
    (forall j :: 0 <= j < k ==> scores[j] <= acc.bestScore) &&
    (forall j :: 0 <= j < acc.best.value ==> scores[j] < acc.bestScore)
  }

  lemma {:induction false} ScanWinnerLeads(scores: seq<int>, counts: seq<int>, k: nat, fixed: bool)
    requires |scores| == |counts| && 1 <= k <= |scores|
    requires forall j :: 0 <= j < |scores| ==> scores[j] > IntMin && counts[j] == counts[0]
    ensures LeadsSoFar(scores, k, ScanWinner(scores, counts, k, fixed))
  {
    if k > 1 {
      ScanWinnerLeads(scores, counts, k - 1, fixed);
      var acc := ScanWinner(scores, counts, k - 1, fixed);
      var s := scores[k - 1];
      if s > acc.bestScore {
        assert forall j :: 0 <= j < k - 1 ==> scores[j] < s;
      }
    }
  }

  /**
   * Even as written, a winner is always the first student with the highest
   * score, and that score reaches the match score; what the flag gets wrong
   * is only whether such a student is reported (WinnerAsWrittenMisjudgesTies).
   */
  lemma WinnerAsWrittenIsFirstMaximum(scores: seq<int>, counts: seq<int>, matchScore: int, k: nat)
    requires |scores| == |counts| && |scores| >= 1
    requires forall j :: 0 <= j < |scores| ==> scores[j] > IntMin && counts[j] == counts[0]
    ensures WinnerAsWritten(scores, counts, matchScore) == Some(k) ==>
              k < |scores| && scores[k] >= matchScore &&
              (forall j :: 0 <= j < |scores| ==> scores[j] <= scores[k]) &&
              (forall j :: 0 <= j < k ==> scores[j] < scores[k])
  {
    ScanWinnerLeads(scores, counts, |scores|, false);
  }

  /**
   * The corrected winner is the student whose score is strictly higher
   * than every other's and reaches the match score, when all counts agree.
   */
  lemma WinnerFixedIsUniqueMaximum(scores: seq<int>, counts: seq<int>, matchScore: int, k: nat)
    requires |scores| == |counts| && |scores| >= 1
    requires forall j :: 0 <= j < |scores| ==> scores[j] > IntMin && counts[j] == counts[0]
    ensures WinnerFixed(scores, counts, matchScore) == Some(k) <==>
              k < |scores| && scores[k] >= matchScore &&
              forall j :: 0 <= j < |scores| && j != k ==> scores[j] < scores[k]
  {
    ScanWinnerFixedLeader(scores, counts, |scores|);
  }

  // ----- The match -----

  class Match {
    var isHyperghost: bool
    const matchScore: int
    const students: array<Student>
    var studentIndex: int
    var puzzle: Puzzle?
    var minimumWordLength: int

    /** A puzzle the match holds has letters the rule can be applied to. */
    predicate Valid()
      reads this
    {
      puzzle != null ==> |puzzle.letters| >= 3
    }

    constructor (matchScore: int, students: array<Student>)
      ensures Valid()
      ensures this.matchScore == matchScore && this.students == students
      ensures !isHyperghost && studentIndex == IntMin && puzzle == null
      ensures minimumWordLength == DefaultMatchMinimumWordLength
    {
      this.matchScore := matchScore;
      this.students := students;
      isHyperghost := false;
      studentIndex := IntMin;
      puzzle := null;
      minimumWordLength := DefaultMatchMinimumWordLength;
    }

    /** The students' scores and score counts, in the current order. */
    function Scores(): seq<int>
      reads students, students[..]
    {
      seq(students.Length, i reads students, students[..] requires 0 <= i < students.Length =>
        students[i].score)
    }

    function ScoreCounts(): seq<int>
      reads students, students[..]
    {
      seq(students.Length, i reads students, students[..] requires 0 <= i < students.Length =>
        students[i].scoreCount)
    }

    /** The swaps of checkStudentOrder, position by position. */
    method ShuffleStudents(choices: seq<int>)
      requires ChoicesFit(choices, students.Length)
      modifies students
      ensures students[..] == Shuffled(old(students[..]), choices, LastPosition(students.Length))
    {
      ghost var original := students[..];
      var i := 0;
      while i < students.Length - 1
        invariant 0 <= i <= LastPosition(students.Length)
        invariant students[..] == Shuffled(original, choices, i)
      {
        ghost var before := students[..];
        var source := choices[i];
        var student := students[i + source];
        students[i + source] := students[i];
        students[i] := student;
        assert students[..] == Swap(before, i, i + source);
        assert Shuffled(original, choices, i + 1) == Swap(before, i, i + source);
        i := i + 1;
      }
    }

    /**
     * checkStudentOrder: the first call shuffles the students by swaps and
     * points the index at the last one; later calls change nothing.
     */
    method CheckStudentOrder(choices: seq<int>)
      requires studentIndex < 0 ==> ChoicesFit(choices, students.Length)
      modifies students, this`studentIndex
      ensures multiset(students[..]) == multiset(old(students[..]))
      ensures old(studentIndex) < 0 ==>
                studentIndex == students.Length - 1 &&
                students[..] == Shuffled(old(students[..]), choices, LastPosition(students.Length))
      ensures old(studentIndex) >= 0 ==> studentIndex == old(studentIndex) && students[..] == old(students[..])
    {
      if studentIndex < 0 {
        ShuffleStudents(choices);
        ShuffledIsPermutation(old(students[..]), choices, LastPosition(students.Length));
        studentIndex := students.Length - 1;
      }
    }

    /**
     * createPuzzle: the next student in turn owns a new puzzle that takes the
     * match's minimum length and the previous puzzle's paused flag; its
     * letters and carried word follow the hyperghost rule.
     */
    method CreatePuzzle(wordList: WordList, choices: seq<int>, freshLetters: string) returns (p: Puzzle)
      requires Valid() && students.Length > 0 && |freshLetters| >= 3
      requires studentIndex < 0 ==> ChoicesFit(choices, students.Length)
      modifies this, students
      ensures Valid()
      ensures isHyperghost == old(isHyperghost) && minimumWordLength == old(minimumWordLength)
      ensures studentIndex == NextOwnerIndex(students.Length, old(studentIndex))
      ensures multiset(students[..]) == multiset(old(students[..]))
      ensures old(studentIndex) >= 0 ==> students[..] == old(students[..])
      ensures fresh(p) && puzzle == p
      ensures 0 <= studentIndex < students.Length && p.owner == students[studentIndex]
      ensures p.wordList == wordList && p.solution == None && p.response == None && p.hint == None
      ensures p.minimumWordLength == minimumWordLength
      ensures p.paused == (old(puzzle) != null && old(puzzle.paused))
      ensures var previous := if old(puzzle) == null then None else Some(old(puzzle.Result()));
              if StartsFresh(previous, isHyperghost) then
                p.letters == freshLetters && p.previousWord == None
              else
                old(puzzle) != null && p.letters == old(puzzle).letters &&
                p.previousWord == CarriedWord(previous.value, old(puzzle.solution), old(puzzle.response))
    {
      CheckStudentOrder(choices);
      studentIndex := (studentIndex + 1) % students.Length;
      var letters: string;
      var previousWord: Option<string>;
      if puzzle == null || !isHyperghost || EndsRun(puzzle.Result()) {
        letters := freshLetters;
        previousWord := None;
      } else {
        letters := puzzle.letters;
        var result := puzzle.Result();
        if result == Longer || result == Later || result == WordFound {
          previousWord := puzzle.response;
        } else {
          previousWord := puzzle.solution;
        }
      }
      var isPaused := puzzle != null && puzzle.paused;
      var created := new Puzzle(letters, students[studentIndex], wordList);
      puzzle := created;
      created.SetPreviousWord(previousWord);
      created.SetMinimumWordLength(minimumWordLength);
      created.SetPaused(isPaused);
      p := created;
    }

    method SetPuzzle(puzzle: Puzzle?)
      requires puzzle != null ==> |puzzle.letters| >= 3
      modifies this`puzzle
      ensures Valid() && this.puzzle == puzzle
    {
      this.puzzle := puzzle;
    }

    method SetMinimumWordLength(minimumWordLength: int)
      modifies this`minimumWordLength
      ensures this.minimumWordLength == minimumWordLength
    {
      this.minimumWordLength := minimumWordLength;
    }

    method SetHyperghost(isHyperghost: bool)
      modifies this`isHyperghost
      ensures this.isHyperghost == isHyperghost
    {
      this.isHyperghost := isHyperghost;
    }

    /**
     * getWinner as written (see WinnerAsWritten): null when the score
     * counts are uneven, when the tie flag left by the last student that did
     * not lead is set, or when the best score is below the match score.
     */
    method GetWinner() returns (winner: Student?)
      ensures var w := WinnerAsWritten(Scores(), ScoreCounts(), matchScore);
              (w.None? ==> winner == null) &&
              (w.Some? ==> w.value < students.Length && winner == students[w.value])
    {
      var bestStudent: Student? := null;
      var bestScore := IntMin;
      var scoreCount := IntMin;
      var isTie := false;
      ghost var scores := Scores();
      ghost var counts := ScoreCounts();
      ghost var bestIndex: Option<nat> := None;
      var i := 0;
      while i < students.Length
        invariant 0 <= i <= students.Length
        invariant ScanWinner(scores, counts, i, false) == Scanning(bestIndex, bestScore, scoreCount, isTie)
        invariant bestIndex.None? <==> bestStudent == null
        invariant bestIndex.Some? ==> bestIndex.value < i && bestStudent == students[bestIndex.value]
      {
        var student := students[i];
        if bestStudent == null {
          scoreCount := student.scoreCount;
        } else if student.scoreCount != scoreCount {
          assert ScanWinner(scores, counts, students.Length, false) == Uneven by {
            UnevenStaysUneven(scores, counts, i + 1, students.Length, false);
          }
          return null;
        }
        if student.score > bestScore {
          bestStudent := student;
          bestIndex := Some(i);
          bestScore := student.score;
        } else {
          isTie := student.score == bestScore;
        }
        i := i + 1;
      }
      winner := if !isTie && bestScore >= matchScore then bestStudent else null;
    }
  }

  /** Once the loop has given up, the remaining students do not matter. */
  lemma {:induction false} UnevenStaysUneven(scores: seq<int>, counts: seq<int>, k: nat, m: nat, fixed: bool)
    requires |scores| == |counts| && k <= m <= |scores|
    requires ScanWinner(scores, counts, k, fixed) == Uneven
    ensures ScanWinner(scores, counts, m, fixed) == Uneven
    decreases m - k
  {
    if k < m {
      UnevenStaysUneven(scores, counts, k + 1, m, fixed);
    }
  }
}
