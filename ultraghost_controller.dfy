/**
 * The single-player ultraghost screen's controller: it shows a puzzle, lets
 * a timer task search the word list in batches for the shortest matching
 * word, and shows that word when the player moves on.
 *
 * The view is reduced to the values it was last given and the tasks handed
 * to its scheduler; the generator is reduced to the letters it produced,
 * which Next takes as a parameter.
 */
module UltraghostControl {
  import opened Wrappers
  import opened JavaText
  import Ultraghost

  /** What the screen shows when the search found nothing. */
  const NoMatchMessage := "None"

  datatype State = PuzzleState | SolutionState

  datatype ControllerError = TaskAlreadyCreated | NoPuzzle

  function Min(a: int, b: int): int {
    if a <= b then a else b
  }

  // ----- The search, as functions of the word list -----

  /** The controller's isMatch: false without a puzzle, else the rule, case-sensitively. */
  predicate Matches(puzzle: Option<string>, word: string)
    requires puzzle.Some? ==> |puzzle.value| >= 3
    requires |word| > 0
    ensures Matches(puzzle, word) ==>
              puzzle.Some? && |word| >= 3 &&
              word[0] == puzzle.value[0] && word[|word| - 1] == puzzle.value[2]
  {
    if puzzle.None? then false
    else
      Ultraghost.PositionalMatchIff(puzzle.value, word);
      Ultraghost.PositionalMatch(puzzle.value, word)
  }

  /** A puzzle the rule can be applied to, and words it can be applied to. */
  predicate Searchable(puzzle: Option<string>, words: seq<string>) {
    (puzzle.Some? ==> |puzzle.value| >= 3) && forall i :: 0 <= i < |words| ==> |words[i]| > 0
  }

  /** checkWord: a matching word replaces the best one when there is none or it is strictly shorter. */
  function CheckWordStep(puzzle: Option<string>, best: Option<string>, word: string): (r: Option<string>)
    requires puzzle.Some? ==> |puzzle.value| >= 3
    requires |word| > 0
    ensures r == best || (r == Some(word) && Matches(puzzle, word))
    ensures best.Some? ==> r.Some? && |r.value| <= |best.value|
    ensures r != best <==> Matches(puzzle, word) && (best.None? || |word| < |best.value|)
  {
    if Matches(puzzle, word) && (best.None? || |word| < |best.value|) then Some(word) else best
  }

  /** The best word after checking `words` in order, starting from `best`. */
  function Scan(puzzle: Option<string>, best: Option<string>, words: seq<string>): Option<string>
    requires Searchable(puzzle, words)
    decreases |words|
  {
    if words == [] then best
    else CheckWordStep(puzzle, Scan(puzzle, best, words[..|words| - 1]), words[|words| - 1])
  }

  /**
   * The best word is never replaced by a longer one: once there is a best
   * word, there is one after any scan, no longer than before, and it is
   * either the old one or a matching word of the scanned stretch.
   */
  lemma {:induction false} ScanNeverLonger(puzzle: Option<string>, best: Option<string>,
                                           words: seq<string>)
    requires Searchable(puzzle, words)
    ensures var r := Scan(puzzle, best, words);
            (best.Some? ==> r.Some? && |r.value| <= |best.value|) &&
            (r == best || (r.Some? && r.value in words && Matches(puzzle, r.value)))
    decreases |words|
  {
    if words != [] {
      var init := words[..|words| - 1];
      SearchablePrefix(puzzle, words, |words| - 1);
      ScanNeverLonger(puzzle, best, init);
      var r0 := Scan(puzzle, best, init);
      if r0 != best {
        assert r0.value in init;
        assert r0.value in words by { assert forall x :: x in init ==> x in words; }
      }
    }
  }

  /** Two stretches of searchable words make a searchable list. */
  lemma SearchableAppend(puzzle: Option<string>, xs: seq<string>, ys: seq<string>)
    requires Searchable(puzzle, xs) && Searchable(puzzle, ys)
    ensures Searchable(puzzle, xs + ys)
  {
    var zs := xs + ys;
    forall i | 0 <= i < |zs| ensures |zs[i]| > 0 {
      if i >= |xs| { assert zs[i] == ys[i - |xs|]; }
    }
  }

  /** A prefix of a searchable list is searchable. */
  lemma SearchablePrefix(puzzle: Option<string>, ys: seq<string>, n: nat)
    requires Searchable(puzzle, ys) && n <= |ys|
    ensures Searchable(puzzle, ys[..n])
  {
    var init := ys[..n];
    forall i | 0 <= i < |init| ensures |init[i]| > 0 { assert init[i] == ys[i]; }
  }

  /** Extending a scanned stretch of the list by the next word is one more check. */
  lemma ScanStep(puzzle: Option<string>, best: Option<string>, words: seq<string>, start: nat, end: nat)
    requires start <= end < |words| && |words[end]| > 0
    requires Searchable(puzzle, words[start..end])
    ensures Searchable(puzzle, words[start..end + 1])
    ensures Scan(puzzle, best, words[start..end + 1]) ==
            CheckWordStep(puzzle, Scan(puzzle, best, words[start..end]), words[end])
  {
    var stretch := words[start..end + 1];
    assert stretch == words[start..end] + [words[end]];
    SearchableAppend(puzzle, words[start..end], [words[end]]);
    assert stretch[..|stretch| - 1] == words[start..end];
  }

  /** Checking two stretches of the list in turn is checking them together. */
  lemma {:induction false} ScanAppend(puzzle: Option<string>, best: Option<string>,
                                      xs: seq<string>, ys: seq<string>)
    requires Searchable(puzzle, xs) && Searchable(puzzle, ys)
    ensures Searchable(puzzle, xs + ys)
    ensures Scan(puzzle, best, xs + ys) == Scan(puzzle, Scan(puzzle, best, xs), ys)
    decreases |ys|
  {
    SearchableAppend(puzzle, xs, ys);
    var zs := xs + ys;
    if ys != [] {
      var init := ys[..|ys| - 1];
      SearchablePrefix(puzzle, ys, |ys| - 1);
      SearchableAppend(puzzle, xs, init);
      var last := ys[|ys| - 1];
      calc {
        Scan(puzzle, best, zs);
      == { assert zs[..|zs| - 1] == xs + init; assert zs[|zs| - 1] == last; }
        CheckWordStep(puzzle, Scan(puzzle, best, xs + init), last);
      == { ScanAppend(puzzle, best, xs, init); }
        CheckWordStep(puzzle, Scan(puzzle, Scan(puzzle, best, xs), init), last);
      }
    } else {
      assert zs == xs;
    }
  }

  /**
   * After the whole list is searched from no best word, the result is None
   * exactly when no word matches, and otherwise it is the earliest-listed
   * matching word of minimal length.
   */
  lemma {:induction false} ScanFinal(puzzle: Option<string>, words: seq<string>)
    requires Searchable(puzzle, words)
    ensures var r := Scan(puzzle, None, words);
            (r.None? <==> forall i :: 0 <= i < |words| ==> !Matches(puzzle, words[i])) &&
            (r.Some? ==>
               exists k :: 0 <= k < |words| && words[k] == r.value && Matches(puzzle, words[k]) &&
                 (forall j :: 0 <= j < |words| && Matches(puzzle, words[j]) ==> |words[j]| >= |r.value|) &&
                 (forall j :: 0 <= j < k && Matches(puzzle, words[j]) ==> |words[j]| > |r.value|))
    decreases |words|
  {
    if words != [] {
      var n := |words| - 1;
      var init := words[..n];
      var w := words[n];
      assert Searchable(puzzle, init) by {
        forall i | 0 <= i < |init| ensures |init[i]| > 0 { assert init[i] == words[i]; }
      }
      ScanFinal(puzzle, init);
      var r0 := Scan(puzzle, None, init);
      var r := Scan(puzzle, None, words);
      assert forall j :: 0 <= j < n ==> words[j] == init[j];
      if r0.None? {
        if Matches(puzzle, w) {
          assert r == Some(w);
          assert words[n] == r.value;
        }
      } else {
        var k0 :| 0 <= k0 < |init| && init[k0] == r0.value && Matches(puzzle, init[k0]) &&
                  (forall j :: 0 <= j < |init| && Matches(puzzle, init[j]) ==> |init[j]| >= |r0.value|) &&
                  (forall j :: 0 <= j < k0 && Matches(puzzle, init[j]) ==> |init[j]| > |r0.value|);
        if Matches(puzzle, w) && |w| < |r0.value| {
          assert r == Some(w);
          assert words[n] == r.value;
        } else {
          assert r == r0;
          assert words[k0] == r.value;
        }
      }
    }
  }

  /** Upper-cases the lines longer than three characters and drops the rest, keeping their order. */
  function FilterLines(lines: seq<string>): (r: seq<string>)
    ensures forall i :: 0 <= i < |r| ==> |r[i]| > 3 && Upper(r[i]) == r[i]
  {
    if lines == [] then []
    else
      var last := lines[|lines| - 1];
      UpperIdempotent(last);
      FilterLines(lines[..|lines| - 1]) + (if |last| > 3 then [Upper(last)] else [])
  }

  /** The filter works line by line: filtering a concatenation concatenates the results. */
  lemma {:induction false} FilterLinesAppend(xs: seq<string>, ys: seq<string>)
    ensures FilterLines(xs + ys) == FilterLines(xs) + FilterLines(ys)
    decreases |ys|
  {
    if ys != [] {
      var zs := xs + ys;
      assert zs[..|zs| - 1] == xs + ys[..|ys| - 1];
      FilterLinesAppend(xs, ys[..|ys| - 1]);
    } else {
      assert xs + ys == xs;
    }
  }

  /** A word is kept exactly when it is the upper-cased form of some line longer than three. */
  lemma {:induction false} FilterLinesMembers(lines: seq<string>, word: string)
    ensures word in FilterLines(lines) <==>
              exists i :: 0 <= i < |lines| && |lines[i]| > 3 && Upper(lines[i]) == word
    decreases |lines|
  {
    if lines != [] {
      var init := lines[..|lines| - 1];
      FilterLinesMembers(init, word);
      assert forall i :: 0 <= i < |init| ==> init[i] == lines[i];
      if exists i :: 0 <= i < |lines| && |lines[i]| > 3 && Upper(lines[i]) == word {
        var i :| 0 <= i < |lines| && |lines[i]| > 3 && Upper(lines[i]) == word;
        if i < |init| {
          assert init[i] == lines[i];
        }
      }
    }
  }

  // ----- The controller and its search task -----

  /** The timer task that searches one batch of words per run. */
  class SearchTask {
    const controller: UltraghostController
    var index: nat
    var cancelled: bool

    constructor (controller: UltraghostController)
      ensures this.controller == controller && index == 0 && !cancelled
    {
      this.controller := controller;
      index := 0;
      cancelled := false;
    }

    method Cancel()
      modifies this`cancelled
      ensures cancelled
    {
      cancelled := true;
    }

    /**
     * run: checks the next words, at most a batch of them and not past the
     * end of the list, then cancels itself once the end is reached.
     */
    method Run()
      requires controller.Valid()
      modifies this`index, this`cancelled, controller`bestSolution
      ensures controller.Valid()
      ensures var size := |controller.wordList|;
              index == if old(index) >= size || controller.searchBatchSize <= 0 then old(index)
                       else Min(size, old(index) + controller.searchBatchSize)
      ensures old(index) <= |controller.wordList| ==>
                Searchable(controller.currentPuzzle, controller.wordList[old(index)..index]) &&
                controller.bestSolution == Scan(controller.currentPuzzle, old(controller.bestSolution),
                                                controller.wordList[old(index)..index])
      ensures old(index) > |controller.wordList| ==> controller.bestSolution == old(controller.bestSolution)
      ensures cancelled == (old(cancelled) || index >= |controller.wordList|)
    {
      var wordCount := controller.searchBatchSize;
      var words := controller.wordList;
      var puzzle := controller.currentPuzzle;
      ghost var start := index;
      ghost var startBest := controller.bestSolution;
      var i := 0;
      while i < wordCount && index < |controller.wordList|
        invariant controller.Valid()
        invariant controller.wordList == words && controller.currentPuzzle == puzzle
        invariant controller.searchBatchSize == wordCount
        invariant cancelled == old(cancelled)
        invariant index == start + i && 0 <= i
        invariant wordCount <= 0 ==> i == 0
        invariant wordCount > 0 ==> i <= wordCount
        invariant start > |words| ==> i == 0 && controller.bestSolution == startBest
        invariant start <= |words| ==>
                    index <= |words| && Searchable(puzzle, words[start..index]) &&
                    controller.bestSolution == Scan(puzzle, startBest, words[start..index])
      {
        var word := words[index];
        ScanStep(puzzle, startBest, words, start, index);
        controller.CheckWord(word);
        index := index + 1;
        i := i + 1;
      }
      if index >= |controller.wordList| {
        Cancel();
      }
    }
  }

  class UltraghostController {
    const playerNames: seq<string>
    var currentPuzzle: Option<string>
    var wordList: seq<string>
    var searchBatchSize: int
    var searchTask: SearchTask?
    var bestSolution: Option<string>
    var playerIndex: int
    /** The last puzzle, solution and active player given to the view. */
    var shownPuzzle: string
    var shownSolution: string
    var activePlayer: string
    /** The tasks handed to the view's scheduler, in order. */
    var scheduled: seq<SearchTask>

    /** Words the rule can be applied to; a task exists only while a puzzle is shown. */
    predicate Valid()
      reads this
    {
      |playerNames| == 2 &&
      (currentPuzzle.Some? ==> |currentPuzzle.value| >= 3) &&
      (forall i :: 0 <= i < |wordList| ==> |wordList[i]| > 3) &&
      0 <= playerIndex < 2 &&
      (currentPuzzle.None? ==> searchTask == null)
    }

    constructor ()
      ensures Valid()
      ensures playerNames == ["Player", "Computer"]
      ensures currentPuzzle == None && wordList == [] && searchBatchSize == 1
      ensures searchTask == null && bestSolution == None && playerIndex == 0
      ensures shownPuzzle == "" && shownSolution == "" && activePlayer == "" && scheduled == []
    {
      playerNames := ["Player", "Computer"];
      currentPuzzle, wordList, searchBatchSize := None, [], 1;
      searchTask, bestSolution, playerIndex := null, None, 0;
      shownPuzzle, shownSolution, activePlayer, scheduled := "", "", "", [];
    }

    /** getState: a puzzle is on show, or its solution is. */
    function GetState(): (r: State)
      reads this
      ensures r == PuzzleState <==> currentPuzzle.Some?
    {
      if currentPuzzle.Some? then PuzzleState else SolutionState
    }

    method SetSearchBatchSize(searchBatchSize: int)
      modifies this`searchBatchSize
      ensures this.searchBatchSize == searchBatchSize
    {
      this.searchBatchSize := searchBatchSize;
    }

    /** checkWord: keeps the shortest matching word seen, the first one among equals. */
    method CheckWord(word: string)
      requires Valid() && |word| > 0
      modifies this`bestSolution
      ensures Valid()
      ensures bestSolution == CheckWordStep(currentPuzzle, old(bestSolution), word)
    {
      var puzzle := currentPuzzle;
      var matches := false;
      if puzzle.Some? {
        matches := Ultraghost.PositionalMatch(puzzle.value, word);
      }
      if matches {
        var previousSolution := bestSolution;
        if previousSolution.None? || |word| < |previousSolution.value| {
          bestSolution := Some(word);
        }
      }
    }

    /** checkAllWords: checks every word of the list in order. */
    method CheckAllWords()
      requires Valid()
      modifies this`bestSolution
      ensures Valid()
      ensures Searchable(currentPuzzle, wordList)
      ensures bestSolution == Scan(currentPuzzle, old(bestSolution), wordList)
    {
      var i := 0;
      while i < |wordList|
        invariant 0 <= i <= |wordList|
        invariant Valid()
        invariant Searchable(currentPuzzle, wordList[..i])
        invariant bestSolution == Scan(currentPuzzle, old(bestSolution), wordList[..i])
      {
        assert wordList[..i + 1][..i] == wordList[..i];
        CheckWord(wordList[i]);
        i := i + 1;
      }
      assert wordList[..|wordList|] == wordList;
    }

    /** The line filter of readWordList: kept lines are appended to the list. */
    method ReadWordList(lines: seq<string>)
      requires Valid()
      modifies this`wordList
      ensures Valid()
      ensures wordList == old(wordList) + FilterLines(lines)
    {
      var i := 0;
      while i < |lines|
        invariant 0 <= i <= |lines|
        invariant wordList == old(wordList) + FilterLines(lines[..i])
      {
        var line := lines[i];
        assert lines[..i + 1][..i] == lines[..i];
        if |line| > 3 {
          wordList := wordList + [Upper(line)];
        }
        i := i + 1;
      }
      assert lines[..|lines|] == lines;
      assert forall k :: 0 <= k < |FilterLines(lines)| ==> |FilterLines(lines)[k]| > 3;
    }

    /** createSearchTask: fails when a task exists already or there is no puzzle. */
    method CreateSearchTask() returns (r: Result<SearchTask, ControllerError>)
      modifies this`searchTask
      ensures old(searchTask) != null ==> r == Failure(TaskAlreadyCreated) && searchTask == old(searchTask)
      ensures old(searchTask) == null && currentPuzzle.None? ==> r == Failure(NoPuzzle) && searchTask == null
      ensures old(searchTask) == null && currentPuzzle.Some? ==>
                r.Success? && fresh(r.value) && searchTask == r.value &&
                r.value.controller == this && r.value.index == 0 && !r.value.cancelled
    {
      if searchTask != null {
        return Failure(TaskAlreadyCreated);
      }
      if currentPuzzle.None? {
        return Failure(NoPuzzle);
      }
      var task := new SearchTask(this);
      searchTask := task;
      return Success(task);
    }

    /**
     * next: with no puzzle shown, shows `generated` as the new puzzle for the
     * current player, passes the turn, forgets the best word and schedules a
     * fresh search; otherwise cancels the search, clears the puzzle and shows
     * the best word found, or "None".
     */
    method Next(generated: string)
      requires Valid() && |generated| >= 3
      modifies this, searchTask
      ensures Valid()
      ensures GetState() != old(GetState())
      ensures wordList == old(wordList)
      ensures searchBatchSize == old(searchBatchSize)
      ensures old(currentPuzzle).None? ==>
                currentPuzzle == Some(generated) && shownPuzzle == generated &&
                activePlayer == playerNames[old(playerIndex)] &&
                playerIndex == (old(playerIndex) + 1) % 2 &&
                bestSolution == None && shownSolution == "" &&
                searchTask != null && fresh(searchTask) && searchTask.controller == this &&
                searchTask.index == 0 && !searchTask.cancelled &&
                scheduled == old(scheduled) + [searchTask]
      ensures old(currentPuzzle).Some? ==>
                currentPuzzle == None && searchTask == null &&
                (old(searchTask) != null ==> old(searchTask).cancelled &&
                                             old(searchTask).index == old(searchTask.index)) &&
                shownSolution == (if old(bestSolution).None? then NoMatchMessage else old(bestSolution).value) &&
                bestSolution == old(bestSolution) && playerIndex == old(playerIndex) &&
                shownPuzzle == old(shownPuzzle) && activePlayer == old(activePlayer) &&
                scheduled == old(scheduled)
    {
      if currentPuzzle.None? {
        currentPuzzle := Some(generated);
        shownPuzzle := generated;
        activePlayer := playerNames[playerIndex];
        playerIndex := (playerIndex + 1) % 2;
        bestSolution := None;
        shownSolution := "";
        var created := CreateSearchTask();
        // A task exists only while a puzzle is shown, so creation succeeds.
        assert created.Success?;
        scheduled := scheduled + [created.value];
        return;
      }
      if searchTask != null {
        searchTask.Cancel();
        searchTask := null;
      }
      currentPuzzle := None;
      var solution := bestSolution;
      var shown := if solution.None? then NoMatchMessage else solution.value;
      shownSolution := shown;
    }
  }
}
