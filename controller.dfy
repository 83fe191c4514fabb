/**
 * The turn controller of the ultraghost game: it creates the match, starts
 * each puzzle, schedules a repeating score task and a repeating search task
 * that lets computer students search in small batches, and reacts when a
 * puzzle changes or is completed.
 *
 * The scheduler is reduced to the set of repeating tasks it is running and
 * their intervals, and the screen to the match it holds and the control it
 * last focused.
 * The puzzle operations this version of the game relies on but does not
 * show (isCompleted, getScore, the result's isValidSolution) are parameters.
 */
module TurnController {
  import opened Wrappers
  import opened Students
  import opened Ultraghost
  import opened Matches

  const ScoreMilliseconds := 100
  const SearchMilliseconds := 10
  const MatchScore := 300

  /** The control the screen last moved the focus to. */
  datatype Focus = Unfocused | SolutionFocus | ResponseFocus | NextButtonFocus

  /** The repeating tasks a scheduler runs, each with its interval in milliseconds. */
  class Scheduler {
    var active: map<object, int>

    constructor ()
      ensures active == map[]
    {
      active := map[];
    }

    method ScheduleRepeating(task: object, milliseconds: int)
      modifies this`active
      ensures active == old(active)[task := milliseconds]
    {
      active := active[task := milliseconds];
    }

    /** Stops a task; cancelling null or a task that is not running changes nothing. */
    method Cancel(task: object?)
      modifies this`active
      ensures active == Without(old(active), task)
    {
      if task != null {
        active := active - {task};
      }
    }
  }

  /** The tasks left running after cancelling `task`. */
  function Without(active: map<object, int>, task: object?): (r: map<object, int>)
    ensures task != null ==> task !in r
    ensures task == null ==> r == active
    ensures forall t :: t in active && t != task ==> t in r && r[t] == active[t]
    ensures r.Keys <= active.Keys
  {
    if task == null then active else active - {task}
  }

  /** The screen the controller drives. */
  class Screen {
    var currentMatch: Match?
    var focus: Focus

    constructor ()
      ensures currentMatch == null && focus == Unfocused
    {
      currentMatch := null;
      focus := Unfocused;
    }
  }

  /** The score task; what it does to the puzzle's score is not part of this model. */
  class ScoreTask {
    constructor ()
    {
    }
  }

  /** The students among `students` that are not in `finished`, in their order. */
  function Remaining(students: seq<Student>, finished: set<Student>): (r: seq<Student>)
    ensures |r| <= |students|
    ensures forall i :: 0 <= i < |r| ==> r[i] in students && r[i] !in finished
    ensures forall i :: 0 <= i < |students| && students[i] !in finished ==> students[i] in r
  {
    if students == [] then []
    else
      var init := Remaining(students[..|students| - 1], finished);
      var last := students[|students| - 1];
      if last in finished then init else init + [last]
  }

  /** Removal keeps the relative order: removing from a concatenation concatenates. */
  lemma {:induction false} RemainingAppend(xs: seq<Student>, ys: seq<Student>, finished: set<Student>)
    ensures Remaining(xs + ys, finished) == Remaining(xs, finished) + Remaining(ys, finished)
    decreases |ys|
  {
    if ys == [] {
      assert xs + ys == xs;
    } else {
      var zs := xs + ys;
      var front := ys[..|ys| - 1];
      var last := ys[|ys| - 1];
      var tail := if last in finished then [] else [last];
      assert zs[..|zs| - 1] == xs + front;
      assert zs[|zs| - 1] == last;
      assert Remaining(zs, finished) == Remaining(xs + front, finished) + tail;
      assert Remaining(ys, finished) == Remaining(front, finished) + tail;
      RemainingAppend(xs, front, finished);
    }
  }

  /** Removal from a list with one more student at the end. */
  lemma RemainingSnoc(students: seq<Student>, last: Student, finished: set<Student>)
    ensures Remaining(students + [last], finished) ==
            Remaining(students, finished) + (if last in finished then [] else [last])
  {
    assert (students + [last])[..|students|] == students;
  }

  /** The students whose next search batch finishes their search. */
  function FinishingNext(students: seq<Student>): set<Student>
    reads set s | s in students
  {
    set s | s in students && s.batchesRun + 1 >= s.batchesToFinish
  }

  /** No student appears twice. */
  predicate Distinct(students: seq<Student>) {
    forall i, j :: 0 <= i < j < |students| ==> students[i] != students[j]
  }

  /** The search task: each run gives one search batch to every student still searching. */
  class SearchTask {
    var searchingStudents: seq<Student>
    const scheduler: Scheduler

    /** The searching students are a copy of the list taken now. */
    constructor (students: seq<Student>, scheduler: Scheduler)
      ensures searchingStudents == students && this.scheduler == scheduler
    {
      searchingStudents := students;
      this.scheduler := scheduler;
    }

    /**
     * run: every searching student runs one batch; those that report
     * finished are removed, the rest keep their order; once none is left
     * the task cancels itself.
     */
    method Run()
      requires Distinct(searchingStudents)
      modifies this`searchingStudents, searchingStudents`batchesRun, scheduler`active
      ensures forall s :: s in old(searchingStudents) ==> s.batchesRun == old(s.batchesRun) + 1
      ensures searchingStudents == Remaining(old(searchingStudents), old(FinishingNext(searchingStudents)))
      ensures Distinct(searchingStudents)
      ensures scheduler.active == if searchingStudents == [] then Without(old(scheduler.active), this)
                                  else old(scheduler.active)
    {
      var remaining := RunBatches(searchingStudents);
      assert Distinct(remaining) by {
        RemainingDistinct(old(searchingStudents), old(FinishingNext(searchingStudents)));
      }
      searchingStudents := remaining;
      if |searchingStudents| == 0 {
        scheduler.Cancel(this);
      }
    }

    /** The loop of run: one batch for each student, keeping those not finished, in order. */
    static method RunBatches(students: seq<Student>) returns (remaining: seq<Student>)
      requires Distinct(students)
      modifies students`batchesRun
      ensures forall s :: s in students ==> s.batchesRun == old(s.batchesRun) + 1
      ensures remaining == Remaining(students, old(FinishingNext(students)))
    {
      ghost var finishing := FinishingNext(students);
      remaining := [];
      var i := 0;
      while i < |students|
        invariant 0 <= i <= |students|
        invariant remaining == Remaining(students[..i], finishing)
        invariant forall j :: 0 <= j < i ==> students[j].batchesRun == old(students[j].batchesRun) + 1
        invariant forall j :: i <= j < |students| ==> students[j].batchesRun == old(students[j].batchesRun)
      {
        var student := students[i];
        assert student in finishing <==> old(student.batchesRun) + 1 >= student.batchesToFinish;
        var isStudentFinished := student.RunSearchBatch();
        if !isStudentFinished {
          remaining := remaining + [student];
        }
        RemainingSnoc(students[..i], student, finishing);
        assert students[..i] + [student] == students[..i + 1];
        i := i + 1;
      }
      assert students[..|students|] == students;
    }
  }

  /** Removing students from a list without repeats leaves a list without repeats. */
  lemma {:induction false} RemainingDistinct(students: seq<Student>, finished: set<Student>)
    requires Distinct(students)
    ensures Distinct(Remaining(students, finished))
    decreases |students|
  {
    if students != [] {
      var init := students[..|students| - 1];
      assert Distinct(init);
      RemainingDistinct(init, finished);
    }
  }

  /** The hint shown after a puzzle: "Perfect!" when no better word exists, else the word. */
  function HintText(better: Option<string>): (r: string)
    ensures better.Some? ==> |r| >= 6 && r[..6] == "hint: " && r[6..] == better.value
    ensures better.None? <==> r == "Perfect!"
  {
    if better.None? then "Perfect!"
    else
      var r := "hint: " + better.value;
      assert r[0] == 'h';
      r
  }

  /** Every listed student was told to start solving the puzzle. */
  predicate AllSolving(students: seq<Student>, puzzle: Puzzle)
    reads set s | s in students
  {
    forall s :: s in students ==> s.solving == puzzle
  }

  class Controller {
    var students: seq<Student>
    var wordList: WordList
    var scoreTask: ScoreTask?
    var searchTask: SearchTask?
    const scheduler: Scheduler
    const screen: Screen
    /** The preferred minimum word length a new match takes. */
    var preferredMinimumWordLength: int

    /**
     * The score and search tasks are created and dropped together, the
     * search task cancels on this controller's scheduler, no student is
     * listed twice, here or in the search task, and the screen's match is
     * well formed.
     */
    predicate Valid()
      reads this, screen, screen.currentMatch, searchTask
    {
      (scoreTask == null <==> searchTask == null) &&
      (searchTask != null ==> searchTask.scheduler == scheduler) &&
      Distinct(students) &&
      (searchTask != null ==> Distinct(searchTask.searchingStudents)) &&
      (screen.currentMatch != null ==> screen.currentMatch.Valid())
    }

    constructor (scheduler: Scheduler, screen: Screen, wordList: WordList, preferredMinimumWordLength: int)
      requires screen.currentMatch != null ==> screen.currentMatch.Valid()
      ensures Valid()
      ensures this.scheduler == scheduler && this.screen == screen && this.wordList == wordList
      ensures this.preferredMinimumWordLength == preferredMinimumWordLength
      ensures students == [] && scoreTask == null && searchTask == null
    {
      this.scheduler := scheduler;
      this.screen := screen;
      this.wordList := wordList;
      this.preferredMinimumWordLength := preferredMinimumWordLength;
      students := [];
      scoreTask, searchTask := null, null;
    }

    /**
     * addStudent: the student joins the list and the current match is
     * dropped. The student must not be listed already.
     */
    method AddStudent(student: Student)
      requires Valid() && student !in students
      modifies this`students, screen`currentMatch
      ensures Valid()
      ensures students == old(students) + [student] && screen.currentMatch == null
    {
      students := students + [student];
      screen.currentMatch := null;
    }

    /** clearStudents: no students, no match, and the next button has the focus. */
    method ClearStudents()
      requires Valid()
      modifies this`students, screen
      ensures Valid()
      ensures students == [] && screen.currentMatch == null && screen.focus == NextButtonFocus
    {
      students := [];
      screen.currentMatch := null;
      screen.focus := NextButtonFocus;
    }

    /**
     * getMatch: the screen's match, created from the current students, the
     * match score and the preferred minimum length when there is none.
     */
    method GetMatch() returns (m: Match)
      requires Valid()
      modifies screen`currentMatch
      ensures Valid() && screen.currentMatch == m
      ensures old(screen.currentMatch) != null ==> m == old(screen.currentMatch)
      ensures old(screen.currentMatch) == null ==>
                fresh(m) && fresh(m.students) && m.students[..] == students &&
                m.matchScore == MatchScore && m.minimumWordLength == preferredMinimumWordLength &&
                !m.isHyperghost && m.puzzle == null && m.studentIndex < 0
    {
      if screen.currentMatch != null {
        return screen.currentMatch;
      }
      var list := students;
      var roster := new Student[|list|](i requires 0 <= i < |list| => list[i]);
      assert roster[..] == list;
      m := new Match(MatchScore, roster);
      m.SetMinimumWordLength(preferredMinimumWordLength);
      screen.currentMatch := m;
    }

    /**
     * restart: every student starts solving the match's puzzle, and the score
     * and search tasks are scheduled only when they are not already.
     */
    method Restart()
      requires Valid() && screen.currentMatch != null && screen.currentMatch.puzzle != null
      modifies this`scoreTask, this`searchTask, scheduler`active, students`solving
      ensures Valid()
      ensures AllSolving(students, screen.currentMatch.puzzle)
      ensures searchTask != null && Distinct(searchTask.searchingStudents)
      ensures old(scoreTask) != null ==>
                scoreTask == old(scoreTask) && searchTask == old(searchTask) &&
                scheduler.active == old(scheduler.active)
      ensures old(scoreTask) == null ==>
                scoreTask != null && searchTask != null && fresh(scoreTask) && fresh(searchTask) &&
                searchTask.searchingStudents == students && searchTask.scheduler == scheduler &&
                scheduler.active == old(scheduler.active)[scoreTask := ScoreMilliseconds]
                                                         [searchTask := SearchMilliseconds]
    {
      // getMatch() returns the screen's match, which is set.
      var m := screen.currentMatch;
      var puzzle := m.puzzle;
      var i := 0;
      while i < |students|
        invariant 0 <= i <= |students|
        invariant Valid() && screen.currentMatch == m && m.puzzle == puzzle
        invariant scoreTask == old(scoreTask) && searchTask == old(searchTask)
        invariant scheduler.active == old(scheduler.active)
        invariant forall j :: 0 <= j < i ==> students[j].solving == puzzle
      {
        students[i].StartSolving(puzzle);
        i := i + 1;
      }
      if scoreTask == null {
        var score := new ScoreTask();
        scoreTask := score;
        scheduler.ScheduleRepeating(score, ScoreMilliseconds);
        var search := new SearchTask(students, scheduler);
        searchTask := search;
        scheduler.ScheduleRepeating(search, SearchMilliseconds);
      }
    }

    /**
     * completed: both tasks are cancelled and dropped, the owner is credited
     * with the puzzle's score, and the hint tells whether a better word exists.
     */
    method Completed(puzzleScore: int)
      requires Valid() && screen.currentMatch != null && screen.currentMatch.puzzle != null
      modifies this`scoreTask, this`searchTask, scheduler`active,
               screen`focus, screen.currentMatch.puzzle`hint,
               screen.currentMatch.puzzle.owner`score, screen.currentMatch.puzzle.owner`scoreCount
      ensures Valid()
      ensures scoreTask == null && searchTask == null
      ensures scheduler.active == Without(Without(old(scheduler.active), old(scoreTask)), old(searchTask))
      ensures var p := screen.currentMatch.puzzle;
              p.owner.score == old(p.owner.score) + puzzleScore &&
              p.owner.scoreCount == old(p.owner.scoreCount) + 1 &&
              p.hint == Some(HintText(FirstBetter(p.letters, p.wordList.Words(), p.minimumWordLength,
                                                  old(p.BestSoFar()))))
      ensures screen.focus == NextButtonFocus
    {
      // getMatch() returns the screen's match, which is set.
      var m := screen.currentMatch;
      var puzzle := m.puzzle;
      scheduler.Cancel(scoreTask);
      scoreTask := null;
      scheduler.Cancel(searchTask);
      searchTask := null;
      puzzle.owner.AddScore(puzzleScore);
      var hint := puzzle.FindNextBetter();
      puzzle.SetHint(Some(HintText(hint)));
      screen.focus := NextButtonFocus;
    }

    /** changed: the response control gets the focus while a response is entered and the puzzle goes on. */
    method Changed(puzzle: Puzzle, isCompleted: bool)
      modifies screen`focus
      ensures screen.focus == if puzzle.response.Some? && !isCompleted then ResponseFocus
                              else old(screen.focus)
    {
      if puzzle.response.Some? && !isCompleted {
        screen.focus := ResponseFocus;
      }
    }

    /**
     * solve: nothing on a completed puzzle; back to the solution control when
     * the result is not a valid solution; otherwise every student but the
     * owner is asked for a response and the search is cancelled.
     */
    method Solve(isCompleted: bool, isValidSolution: bool)
      requires Valid() && screen.currentMatch != null && screen.currentMatch.puzzle != null
      modifies screen`focus, students`responseRequested, scheduler`active
      ensures Valid()
      ensures var owner := screen.currentMatch.puzzle.owner;
              if isCompleted then
                screen.focus == old(screen.focus) && scheduler.active == old(scheduler.active) &&
                forall s :: s in students ==> s.responseRequested == old(s.responseRequested)
              else if !isValidSolution then
                screen.focus == SolutionFocus && scheduler.active == old(scheduler.active) &&
                forall s :: s in students ==> s.responseRequested == old(s.responseRequested)
              else
                screen.focus == old(screen.focus) &&
                scheduler.active == Without(old(scheduler.active), searchTask) &&
                forall s :: s in students ==>
                  s.responseRequested == (old(s.responseRequested) || s != owner)
      ensures forall s :: s in students ==>
                s.score == old(s.score) && s.scoreCount == old(s.scoreCount) &&
                s.batchesRun == old(s.batchesRun) && s.solving == old(s.solving)
    {
      // getMatch() returns the screen's match, which is set.
      var m := screen.currentMatch;
      var puzzle := m.puzzle;
      if isCompleted {
        return;
      }
      if !isValidSolution {
        screen.focus := SolutionFocus;
      } else {
        var i := 0;
        while i < |students|
          invariant 0 <= i <= |students|
          invariant Valid() && screen.currentMatch == m && m.puzzle == puzzle
          invariant screen.focus == old(screen.focus)
          invariant scheduler.active == old(scheduler.active)
          invariant forall j :: 0 <= j < |students| ==>
                      students[j].responseRequested ==
                        (old(students[j].responseRequested) ||
                         (students[j] != puzzle.owner && exists k :: 0 <= k < i && students[k] == students[j]))
          invariant forall s :: s in students ==>
                      s.score == old(s.score) && s.scoreCount == old(s.scoreCount) &&
                      s.batchesRun == old(s.batchesRun) && s.solving == old(s.solving)
        {
          var student := students[i];
          if student != puzzle.owner {
            student.PrepareResponse();
          }
          i := i + 1;
        }
        scheduler.Cancel(searchTask);
      }
    }

    /** cancelMatch: the search task stops. */
    method CancelMatch()
      modifies scheduler`active
      ensures scheduler.active == Without(old(scheduler.active), searchTask)
    {
      scheduler.Cancel(searchTask);
    }

    /** start: the match creates the next puzzle, then the turn restarts on it. */
    method Start(choices: seq<int>, freshLetters: string)
      requires Valid() && |freshLetters| >= 3
      requires screen.currentMatch == null ==> |students| > 0 && ChoicesFit(choices, |students|)
      requires screen.currentMatch != null ==>
                 screen.currentMatch.students.Length > 0 &&
                 (screen.currentMatch.studentIndex < 0 ==> ChoicesFit(choices, screen.currentMatch.students.Length))
      modifies this`scoreTask, this`searchTask, scheduler`active, students`solving, screen`currentMatch,
               screen.currentMatch, if screen.currentMatch != null then {screen.currentMatch.students} else {}
      ensures Valid() && screen.currentMatch != null && screen.currentMatch.puzzle != null
      ensures old(screen.currentMatch) != null ==> screen.currentMatch == old(screen.currentMatch)
      ensures old(screen.currentMatch) == null ==>
                fresh(screen.currentMatch) && multiset(screen.currentMatch.students[..]) == multiset(students) &&
                screen.currentMatch.matchScore == MatchScore && !screen.currentMatch.isHyperghost &&
                screen.currentMatch.minimumWordLength == preferredMinimumWordLength
      ensures var m := screen.currentMatch;
              var p := m.puzzle;
              fresh(p) && p.wordList == wordList &&
              0 <= m.studentIndex < m.students.Length && p.owner == m.students[m.studentIndex] &&
              p.solution == None && p.response == None && p.hint == None &&
              p.minimumWordLength == m.minimumWordLength
      ensures old(screen.currentMatch) == null ==>
                var p := screen.currentMatch.puzzle;
                screen.currentMatch.studentIndex == 0 &&
                p.letters == freshLetters && p.previousWord == None && !p.paused
      ensures old(screen.currentMatch) != null ==>
                var m := screen.currentMatch;
                var p := m.puzzle;
                var previous := if old(m.puzzle) == null then None else Some(old(m.puzzle.Result()));
                m.studentIndex == NextOwnerIndex(m.students.Length, old(m.studentIndex)) &&
                p.paused == (old(m.puzzle) != null && old(m.puzzle.paused)) &&
                if StartsFresh(previous, m.isHyperghost) then
                  p.letters == freshLetters && p.previousWord == None
                else
                  old(m.puzzle) != null && p.letters == old(m.puzzle).letters &&
                  p.previousWord == CarriedWord(previous.value, old(m.puzzle.solution), old(m.puzzle.response))
      ensures AllSolving(students, screen.currentMatch.puzzle)
      ensures old(scoreTask) != null ==>
                scoreTask == old(scoreTask) && searchTask == old(searchTask) &&
                scheduler.active == old(scheduler.active)
      ensures old(scoreTask) == null ==>
                scoreTask != null && searchTask != null && fresh(scoreTask) && fresh(searchTask) &&
                searchTask.searchingStudents == students && searchTask.scheduler == scheduler &&
                scheduler.active == old(scheduler.active)[scoreTask := ScoreMilliseconds]
                                                         [searchTask := SearchMilliseconds]
    {
      var m := GetMatch();
      ghost var previousIndex := m.studentIndex;
      var puzzle := m.CreatePuzzle(wordList, choices, freshLetters);
      if previousIndex < 0 {
        // The first puzzle goes to the first student of the shuffled order.
        var n := m.students.Length;
        assert n % n == 0;
        assert m.studentIndex == 0;
      }
      Restart();
    }
  }
}
