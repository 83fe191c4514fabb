/**
 * A contestant, seen only through what the match and the controllers ask of
 * it. Its own behaviour (how a computer player searches, how a human
 * answers) is not part of this model: a student records its score and the
 * number of scores it received, finishes its search after a fixed number of
 * search batches, and remembers the requests it was sent.
 */
module Students {

  class Student {
    const name: string
    /** The number of search batches after which its search reports finished. */
    const batchesToFinish: nat
    var score: int
    var scoreCount: int
    var batchesRun: nat
    /** The last puzzle it was asked to start solving, as an opaque object. */
    var solving: object?
    var responseRequested: bool

    constructor (name: string, batchesToFinish: nat)
      ensures this.name == name && this.batchesToFinish == batchesToFinish
      ensures score == 0 && scoreCount == 0 && batchesRun == 0
      ensures solving == null && !responseRequested
    {
      this.name := name;
      this.batchesToFinish := batchesToFinish;
      score, scoreCount, batchesRun := 0, 0, 0;
      solving, responseRequested := null, false;
    }

    /** Credits one score event. */
    method AddScore(points: int)
      modifies this`score, this`scoreCount
      ensures score == old(score) + points && scoreCount == old(scoreCount) + 1
    {
      score := score + points;
      scoreCount := scoreCount + 1;
    }

    /** Runs one batch of its search and reports whether the search has finished. */
    method RunSearchBatch() returns (finished: bool)
      modifies this`batchesRun
      ensures batchesRun == old(batchesRun) + 1
      ensures finished <==> batchesRun >= batchesToFinish
    {
      batchesRun := batchesRun + 1;
      finished := batchesRun >= batchesToFinish;
    }

    /** Told that a new puzzle has started. */
    method StartSolving(puzzle: object)
      modifies this`solving
      ensures solving == puzzle
    {
      solving := puzzle;
    }

    /** Asked to prepare a response to the owner's solution. */
    method PrepareResponse()
      modifies this`responseRequested
      ensures responseRequested
    {
      responseRequested := true;
    }
  }
}
