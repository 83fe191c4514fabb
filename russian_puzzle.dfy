/**
 * The "russian" puzzle: a clue names two target words, and the player
 * solves it by inserting one target into the other (UN + COMFORT + ABLE).
 *
 * The clue's words come from splitting it at runs of whitespace; starred
 * words, stripped of the star and other punctuation, are moved to the front
 * of the word array in place, and the first two array entries become the
 * targets.
 */
module Russian {
  import opened Wrappers
  import opened JavaText

  /** Why no puzzle could be built from a clue. */
  datatype ClueError =
    | EmptyWord    // a word has no first character (an empty clue, or leading whitespace)
    | TooFewWords  // fewer than two words

  // ----- Splitting the clue: String.split("\\s+") -----

  /** The index of the first whitespace character, or |s| when there is none. */
  function FirstSpace(s: string): (k: nat)
    ensures k <= |s|
    ensures forall i :: 0 <= i < k ==> !IsSpace(s[i])
    ensures k < |s| ==> IsSpace(s[k])
  {
    if s == [] || IsSpace(s[0]) then 0 else 1 + FirstSpace(s[1..])
  }

  /** The string without its leading whitespace. */
  function SkipSpaces(s: string): (r: string)
    ensures |r| <= |s| && r == s[|s| - |r|..]
    ensures r == [] || !IsSpace(r[0])
    ensures forall i :: 0 <= i < |s| - |r| ==> IsSpace(s[i])
  {
    if s != [] && IsSpace(s[0]) then SkipSpaces(s[1..]) else s
  }

  /** No character of the word is whitespace. */
  predicate NoSpace(w: string) {
    forall j :: 0 <= j < |w| ==> !IsSpace(w[j])
  }

  /**
   * The text between runs of whitespace, with an empty piece before leading
   * whitespace and after trailing whitespace.
   */
  function Pieces(s: string): (r: seq<string>)
    ensures |r| >= 1
    decreases |s|
  {
    var k := FirstSpace(s);
    if k == |s| then [s] else [s[..k]] + Pieces(SkipSpaces(s[k + 1..]))
  }

  /**
   * Pieces hold no whitespace, only the first and the last can be empty, and
   * the first is not empty when the string starts with something other than
   * whitespace.
   */
  lemma {:induction false} PiecesShape(s: string)
    ensures forall i :: 0 <= i < |Pieces(s)| ==> NoSpace(Pieces(s)[i])
    ensures forall i :: 0 < i < |Pieces(s)| - 1 ==> Pieces(s)[i] != ""
    ensures s != [] && !IsSpace(s[0]) ==> Pieces(s)[0] != ""
    ensures |Pieces(s)| == 1 ==> Pieces(s)[0] == s
    decreases |s|
  {
    var k := FirstSpace(s);
    if k < |s| {
      var rest := SkipSpaces(s[k + 1..]);
      PiecesShape(rest);
      var tail := Pieces(rest);
      var r := Pieces(s);
      assert r == [s[..k]] + tail;
      forall i | 0 < i < |r|
        ensures r[i] == tail[i - 1]
      {
      }
      assert |tail| >= 2 ==> rest != [];
    }
  }

  /** The list without its trailing empty strings. */
  function DropTrailingEmpty(ws: seq<string>): (r: seq<string>)
    ensures |r| <= |ws| && r == ws[..|r|]
    ensures r == [] || r[|r| - 1] != ""
    ensures forall i :: |r| <= i < |ws| ==> ws[i] == ""
  {
    if ws != [] && ws[|ws| - 1] == "" then DropTrailingEmpty(ws[..|ws| - 1]) else ws
  }

  /**
   * split("\\s+"): the pieces without trailing empty strings; a clue with no
   * whitespace at all, the empty clue included, is its own only piece.
   */
  function Split(s: string): (r: seq<string>)
    ensures forall i :: 0 <= i < |r| ==> NoSpace(r[i])
  {
    if s == "" then [""]
    else
      PiecesShape(s);
      DropTrailingEmpty(Pieces(s))
  }

  /**
   * Only the first word can be empty, and only when the clue is empty or
   * starts with whitespace.
   */
  lemma SplitEmptyWords(s: string)
    ensures forall i :: 0 <= i < |Split(s)| && Split(s)[i] == "" ==> i == 0 && (s == "" || IsSpace(s[0]))
  {
    if s != "" {
      PiecesShape(s);
      DropTrailingEmptyInner(Pieces(s));
    }
  }

  /** When only the ends can be empty, dropping the trailing empties leaves only the first one possibly empty. */
  lemma DropTrailingEmptyInner(ws: seq<string>)
    requires forall i :: 0 < i < |ws| - 1 ==> ws[i] != ""
    ensures forall i :: 0 < i < |DropTrailingEmpty(ws)| ==> DropTrailingEmpty(ws)[i] != ""
    ensures DropTrailingEmpty(ws) != [] ==> DropTrailingEmpty(ws)[0] == ws[0]
  {
    var r := DropTrailingEmpty(ws);
    forall i | 0 <= i < |r|
      ensures r[i] == ws[i]
    {
      assert ws[..|r|][i] == ws[i];
    }
  }

  /**
   * A clue has an empty word exactly when it is empty, or starts with
   * whitespace and has something other than whitespace.
   */
  lemma SplitEmptyWordIff(s: string)
    ensures (exists i :: 0 <= i < |Split(s)| && Split(s)[i] == "") <==>
            s == "" || (IsSpace(s[0]) && exists j :: 0 <= j < |s| && !IsSpace(s[j]))
  {
    if s == "" {
      assert Split(s)[0] == "";
    } else if !IsSpace(s[0]) {
      SplitEmptyWords(s);
    } else if exists j :: 0 <= j < |s| && !IsSpace(s[j]) {
      LeadingSpaceGivesEmptyWord(s);
    } else {
      SplitAllSpaces(s);
    }
  }

  /** Leading whitespace before a word gives an empty first word. */
  lemma LeadingSpaceGivesEmptyWord(s: string)
    requires s != "" && IsSpace(s[0]) && exists j :: 0 <= j < |s| && !IsSpace(s[j])
    ensures |Split(s)| >= 2 && Split(s)[0] == ""
  {
    LeadingSpacePieces(s);
    DropTrailingEmptyKeeps(Pieces(s), 1);
  }

  lemma LeadingSpacePieces(s: string)
    requires s != "" && IsSpace(s[0]) && exists j :: 0 <= j < |s| && !IsSpace(s[j])
    ensures |Pieces(s)| >= 2 && Pieces(s)[0] == "" && Pieces(s)[1] != ""
  {
    var j :| 0 <= j < |s| && !IsSpace(s[j]);
    var t := s[1..];
    var rest := SkipSpaces(t);
    assert FirstSpace(s) == 0;
    assert !IsSpace(t[j - 1]);
    assert j - 1 >= |t| - |rest|;
    PiecesShape(rest);
    assert s[..0] == "";
    assert Pieces(s) == [""] + Pieces(rest);
  }

  /** Dropping trailing empty strings keeps everything up to a non-empty one. */
  lemma DropTrailingEmptyKeeps(ws: seq<string>, k: nat)
    requires k < |ws| && ws[k] != ""
    ensures |DropTrailingEmpty(ws)| > k && DropTrailingEmpty(ws)[..k + 1] == ws[..k + 1]
  {
    var r := DropTrailingEmpty(ws);
    assert ws[..|r|] == r;
  }

  /** A clue of whitespace alone has no words at all. */
  lemma SplitAllSpaces(s: string)
    requires s != "" && forall j :: 0 <= j < |s| ==> IsSpace(s[j])
    ensures Split(s) == []
  {
    var rest := SkipSpaces(s[1..]);
    assert rest == [];
    assert FirstSpace(s) == 0;
    assert Pieces(s) == [""] + Pieces(rest);
    assert Pieces(rest) == [""];
  }

  // ----- Choosing the targets -----

  /** Every character of the word is a word character. */
  predicate AllWordChars(w: string) {
    forall j :: 0 <= j < |w| ==> IsWordChar(w[j])
  }

  predicate IsStarred(w: string) {
    |w| > 0 && w[0] == '*'
  }

  /** The starred words, in order, with every non-word character removed. */
  function StarredTargets(ws: seq<string>): (r: seq<string>)
    ensures |r| <= |ws|
    ensures forall t :: 0 <= t < |r| ==> AllWordChars(r[t])
  {
    if ws == [] then []
    else
      var last := ws[|ws| - 1];
      StarredTargets(ws[..|ws| - 1]) + (if IsStarred(last) then [RemoveNonWord(last)] else [])
  }

  /** The word array after the constructor's loop: the stripped starred words overwrite the front. */
  function Compacted(ws: seq<string>): (r: seq<string>)
    ensures |r| == |ws|
  {
    StarredTargets(ws) + ws[|StarredTargets(ws)|..]
  }

  /**
   * Each slot of the array after the loop holds its own word or the
   * stripped form of a starred word at that position or later.
   */
  lemma CompactedSlots(ws: seq<string>)
    ensures forall i :: 0 <= i < |ws| ==>
              Compacted(ws)[i] == ws[i] ||
              exists j :: i <= j < |ws| && IsStarred(ws[j]) && Compacted(ws)[i] == RemoveNonWord(ws[j])
  {
    StarredTargetsFromLater(ws);
  }

  /** The t-th target is the stripped form of a starred word at position t or later. */
  lemma {:induction false} StarredTargetsFromLater(ws: seq<string>)
    ensures forall t :: 0 <= t < |StarredTargets(ws)| ==>
              exists j :: t <= j < |ws| && IsStarred(ws[j]) && StarredTargets(ws)[t] == RemoveNonWord(ws[j])
  {
    if ws != [] {
      var init := ws[..|ws| - 1];
      StarredTargetsFromLater(init);
      var r := StarredTargets(ws);
      var r0 := StarredTargets(init);
      var last := ws[|ws| - 1];
      assert r == r0 + (if IsStarred(last) then [RemoveNonWord(last)] else []);
      forall t | 0 <= t < |r|
        ensures exists j :: t <= j < |ws| && IsStarred(ws[j]) && r[t] == RemoveNonWord(ws[j])
      {
        if t < |r0| {
          var j :| t <= j < |init| && IsStarred(init[j]) && r0[t] == RemoveNonWord(init[j]);
          assert ws[j] == init[j];
        } else {
          assert IsStarred(last) && r[t] == RemoveNonWord(last);
          assert t <= |ws| - 1;
        }
      }
      assert r == StarredTargets(ws);
    } else {
      assert StarredTargets(ws) == [];
    }
  }

  /** The two targets: the first two entries of the compacted array, upper-cased. */
  function Targets(ws: seq<string>): (r: seq<string>)
    requires |ws| >= 2
    ensures |r| == 2 && |r[0]| == |Compacted(ws)[0]| && |r[1]| == |Compacted(ws)[1]|
    ensures forall t, j :: 0 <= t < 2 && 0 <= j < |r[t]| ==> !('a' <= r[t][j] <= 'z')
  {
    [Upper(Compacted(ws)[0]), Upper(Compacted(ws)[1])]
  }

  lemma {:induction false} StarredTargetsAppend(xs: seq<string>, ys: seq<string>)
    ensures StarredTargets(xs + ys) == StarredTargets(xs) + StarredTargets(ys)
    decreases |ys|
  {
    if ys == [] {
      assert xs + ys == xs;
    } else {
      var zs := xs + ys;
      assert zs[..|zs| - 1] == xs + ys[..|ys| - 1];
      StarredTargetsAppend(xs, ys[..|ys| - 1]);
    }
  }

  /** Appending one word adds its stripped form exactly when it is starred. */
  lemma StarredTargetsSnoc(ws: seq<string>, w: string)
    ensures StarredTargets(ws + [w]) == StarredTargets(ws) + (if IsStarred(w) then [RemoveNonWord(w)] else [])
  {
    assert (ws + [w])[..|ws|] == ws;
  }

  /** No starred word: nothing is moved. */
  lemma {:induction false} NoStarredTargets(ws: seq<string>)
    requires forall i :: 0 <= i < |ws| ==> !IsStarred(ws[i])
    ensures StarredTargets(ws) == []
  {
    if ws != [] {
      NoStarredTargets(ws[..|ws| - 1]);
    }
  }

  /** With no starred word, the targets are the first two words. */
  lemma TargetsWithoutStars(ws: seq<string>)
    requires |ws| >= 2 && forall i :: 0 <= i < |ws| ==> !IsStarred(ws[i])
    ensures Targets(ws) == [Upper(ws[0]), Upper(ws[1])]
  {
    NoStarredTargets(ws);
  }

  /** With two or more starred words, the targets are the first two of them, stripped. */
  lemma TargetsWithStars(ws: seq<string>)
    requires |ws| >= 2 && |StarredTargets(ws)| >= 2
    ensures Targets(ws) == [Upper(StarredTargets(ws)[0]), Upper(StarredTargets(ws)[1])]
    ensures forall t :: 0 <= t < 2 ==> forall j :: 0 <= j < |Targets(ws)[t]| ==> IsWordChar(Targets(ws)[t][j])
  {
    var st := StarredTargets(ws);
    forall t | 0 <= t < 2
      ensures forall j :: 0 <= j < |Targets(ws)[t]| ==> IsWordChar(Targets(ws)[t][j])
    {
      assert Targets(ws)[t] == Upper(st[t]);
      assert AllWordChars(st[t]);
    }
  }

  /**
   * With exactly one starred word, the stripped starred word comes first and
   * the second word of the clue, as it stands, comes second.
   */
  lemma TargetsWithOneStar(ws: seq<string>, k: nat)
    requires |ws| >= 2 && k < |ws| && IsStarred(ws[k])
    requires forall i :: 0 <= i < |ws| && i != k ==> !IsStarred(ws[i])
    ensures Targets(ws) == [Upper(RemoveNonWord(ws[k])), Upper(ws[1])]
  {
    assert ws == ws[..k] + [ws[k]] + ws[k + 1..];
    NoStarredTargets(ws[..k]);
    NoStarredTargets(ws[k + 1..]);
    StarredTargetsAppend(ws[..k] + [ws[k]], ws[k + 1..]);
    StarredTargetsAppend(ws[..k], [ws[k]]);
    assert StarredTargets([ws[k]]) == [RemoveNonWord(ws[k])] by {
      assert [ws[k]][..0] == [];
    }
  }

  /** Words joined by single spaces: the inverse of Split on well-formed clues. */
  function JoinWords(ws: seq<string>): (r: string)
    requires |ws| >= 1
  {
    if |ws| == 1 then ws[0] else ws[0] + " " + JoinWords(ws[1..])
  }

  /** A non-empty word without whitespace. */
  predicate PlainWord(w: string) {
    w != "" && NoSpace(w)
  }

  /** A word, a space, and a string that starts with a non-space: the word is the first piece. */
  lemma PiecesCons(w: string, rest: string)
    requires NoSpace(w) && rest != [] && !IsSpace(rest[0])
    ensures Pieces(w + " " + rest) == [w] + Pieces(rest)
  {
    var s := w + " " + rest;
    assert s[|w|] == ' ';
    assert s[..|w|] == w;
    assert FirstSpace(s) == |w|;
    assert s[|w| + 1..] == rest;
  }

  lemma {:induction false} JoinWordsStart(ws: seq<string>)
    requires |ws| >= 1 && ws[0] != ""
    ensures JoinWords(ws) != "" && JoinWords(ws)[0] == ws[0][0]
  {
  }

  lemma {:induction false} PiecesJoin(ws: seq<string>)
    requires |ws| >= 1 && forall i :: 0 <= i < |ws| ==> PlainWord(ws[i])
    ensures Pieces(JoinWords(ws)) == ws
    decreases |ws|
  {
    if |ws| == 1 {
      assert PlainWord(ws[0]);
      assert FirstSpace(ws[0]) == |ws[0]|;
    } else {
      var rest := ws[1..];
      assert PlainWord(ws[0]) && PlainWord(rest[0]);
      assert forall i :: 0 <= i < |rest| ==> PlainWord(rest[i]) by {
        forall i | 0 <= i < |rest| ensures PlainWord(rest[i]) { assert rest[i] == ws[i + 1]; }
      }
      PiecesJoin(rest);
      JoinWordsStart(rest);
      PiecesCons(ws[0], JoinWords(rest));
      assert JoinWords(ws) == ws[0] + " " + JoinWords(rest);
    }
  }

  /** Splitting words joined by single spaces gives the words back. */
  lemma SplitJoin(ws: seq<string>)
    requires |ws| >= 1 && forall i :: 0 <= i < |ws| ==> PlainWord(ws[i])
    ensures Split(JoinWords(ws)) == ws
  {
    assert PlainWord(ws[0]);
    JoinWordsStart(ws);
    PiecesJoin(ws);
  }

  lemma {:induction false} RemoveNonWordAppend(xs: string, ys: string)
    ensures RemoveNonWord(xs + ys) == RemoveNonWord(xs) + RemoveNonWord(ys)
  {
    if xs != [] {
      assert (xs + ys)[0] == xs[0];
      assert (xs + ys)[1..] == xs[1..] + ys;
      RemoveNonWordAppend(xs[1..], ys);
      if IsWordChar(xs[0]) {
        assert RemoveNonWord(xs + ys) == [xs[0]] + (RemoveNonWord(xs[1..]) + RemoveNonWord(ys));
      }
    } else {
      assert xs + ys == ys;
    }
  }

  lemma {:induction false} RemoveNonWordKeeps(w: string)
    requires AllWordChars(w)
    ensures RemoveNonWord(w) == w
  {
    if w != [] {
      RemoveNonWordKeeps(w[1..]);
    }
  }

  /** A starred word loses exactly its stars and the punctuation around it. */
  lemma StrippedStarredWord(w: string, punctuation: string)
    requires AllWordChars(w)
    requires forall j :: 0 <= j < |punctuation| ==> !IsWordChar(punctuation[j])
    ensures RemoveNonWord("*" + w + punctuation) == w
  {
    RemoveNonWordAppend("*" + w, punctuation);
    RemoveNonWordAppend("*", w);
    RemoveNonWordKeeps(w);
    NoWordChars(punctuation);
  }

  lemma {:induction false} NoWordChars(s: string)
    requires forall j :: 0 <= j < |s| ==> !IsWordChar(s[j])
    ensures RemoveNonWord(s) == ""
  {
    if s != [] {
      NoWordChars(s[1..]);
    }
  }

  lemma StarredTargetsOfOne(w: string)
    ensures StarredTargets([w]) == if IsStarred(w) then [RemoveNonWord(w)] else []
  {
    assert [w][..0] == [];
  }

  /** A two-word clue splits into its two words. */
  lemma TwoWordSplit()
    ensures Split("two words") == ["two", "words"]
  {
    var ws := ["two", "words"];
    assert JoinWords(ws) == "two words" by {
      assert JoinWords(ws[1..]) == "words";
    }
    assert PlainWord(ws[0]) && PlainWord(ws[1]);
    SplitJoin(ws);
  }

  /** With no starred word, the two words are the targets. */
  lemma TwoWordTargets()
    ensures Targets(["two", "words"]) == ["TWO", "WORDS"]
  {
    var ws := ["two", "words"];
    assert !IsStarred(ws[0]) && !IsStarred(ws[1]);
    TargetsWithoutStars(ws);
    assert Upper("two") == "TWO" by {
      assert UpperChar('t') == 'T' && UpperChar('w') == 'W' && UpperChar('o') == 'O';
    }
    assert Upper("words") == "WORDS" by {
      assert UpperChar('w') == 'W' && UpperChar('o') == 'O' && UpperChar('r') == 'R';
      assert UpperChar('d') == 'D' && UpperChar('s') == 'S';
    }
  }

  /** A three-word clue splits into its three words. */
  lemma ThreeWordSplit()
    ensures Split("three *big* *words*") == ["three", "*big*", "*words*"]
  {
    var ws := ["three", "*big*", "*words*"];
    assert JoinWords(ws) == "three *big* *words*" by {
      assert ws[1..][1..] == ["*words*"];
      assert JoinWords(ws[1..]) == "*big* *words*";
    }
    assert PlainWord(ws[0]) && PlainWord(ws[1]) && PlainWord(ws[2]);
    SplitJoin(ws);
  }

  lemma StrippedBig() ensures RemoveNonWord("*big*") == "big" {
    assert "*big*" == "*" + "big" + "*";
    StrippedWord("big", "*");
  }

  lemma StrippedWords() ensures RemoveNonWord("*words*") == "words" {
    assert "*words*" == "*" + "words" + "*";
    StrippedWord("words", "*");
  }

  lemma StrippedTargets() ensures RemoveNonWord("*targets*") == "targets" {
    assert "*targets*" == "*" + "targets" + "*";
    StrippedWord("targets", "*");
  }

  lemma StrippedPunctuation() ensures RemoveNonWord("*punctuation*!") == "punctuation" {
    assert "*punctuation*!" == "*" + "punctuation" + "*!";
    StrippedWord("punctuation", "*!");
  }

  lemma StrippedWord(w: string, punctuation: string)
    requires forall j :: 0 <= j < |w| ==> 'a' <= w[j] <= 'z'
    requires forall j :: 0 <= j < |punctuation| ==> punctuation[j] in "*!"
    ensures RemoveNonWord("*" + w + punctuation) == w
  {
    StrippedStarredWord(w, punctuation);
  }

  lemma ThreeWordStarred()
    ensures StarredTargets(["three", "*big*", "*words*"]) == ["big", "words"]
  {
    StarredTargetsOfOne("three");
    StarredTargetsSnoc(["three"], "*big*");
    assert ["three"] + ["*big*"] == ["three", "*big*"];
    StrippedBig();
    StarredTargetsSnoc(["three", "*big*"], "*words*");
    assert ["three", "*big*"] + ["*words*"] == ["three", "*big*", "*words*"];
    StrippedWords();
  }

  /** The two starred words, stripped, are the targets. */
  lemma ThreeWordTargets()
    ensures Targets(["three", "*big*", "*words*"]) == ["BIG", "WORDS"]
  {
    ThreeWordStarred();
    TargetsWithStars(["three", "*big*", "*words*"]);
    UpperExamples();
  }

  lemma PunctuatedStarred()
    ensures StarredTargets(["*targets*", "sometimes", "have", "*punctuation*!"]) == ["targets", "punctuation"]
  {
    PunctuatedPrefix();
    StarredTargetsSnoc(["*targets*", "sometimes", "have"], "*punctuation*!");
    assert ["*targets*", "sometimes", "have"] + ["*punctuation*!"] == ["*targets*", "sometimes", "have", "*punctuation*!"];
    StrippedPunctuation();
  }

  lemma PunctuatedPrefix()
    ensures StarredTargets(["*targets*", "sometimes", "have"]) == ["targets"]
  {
    StarredTargetsOfOne("*targets*");
    StrippedTargets();
    StarredTargetsSnoc(["*targets*"], "sometimes");
    assert ["*targets*"] + ["sometimes"] == ["*targets*", "sometimes"];
    StarredTargetsSnoc(["*targets*", "sometimes"], "have");
    assert ["*targets*", "sometimes"] + ["have"] == ["*targets*", "sometimes", "have"];
  }

  /** Punctuation after a starred word is stripped along with the stars. */
  lemma PunctuatedTargets()
    ensures Targets(["*targets*", "sometimes", "have", "*punctuation*!"]) == ["TARGETS", "PUNCTUATION"]
  {
    PunctuatedStarred();
    TargetsWithStars(["*targets*", "sometimes", "have", "*punctuation*!"]);
    UpperExamples();
  }

  lemma UpperExamples()
    ensures Upper("big") == "BIG"
    ensures Upper("words") == "WORDS"
    ensures Upper("targets") == "TARGETS"
    ensures Upper("punctuation") == "PUNCTUATION"
  {
    assert UpperChar('t') == 'T' && UpperChar('a') == 'A' && UpperChar('r') == 'R';
    assert UpperChar('g') == 'G' && UpperChar('e') == 'E' && UpperChar('s') == 'S';
    assert UpperChar('p') == 'P' && UpperChar('u') == 'U' && UpperChar('n') == 'N';
    assert UpperChar('c') == 'C' && UpperChar('i') == 'I' && UpperChar('o') == 'O';
    assert UpperChar('b') == 'B' && UpperChar('w') == 'W' && UpperChar('d') == 'D';
  }

  // ----- Inserting one target into the other -----

  /** getCombination: the target word with the other target inserted before character c. */
  function Combination(targets: seq<string>, w: int, c: int): (r: string)
    requires |targets| == 2 && 0 <= w < 2 && 0 <= c <= |targets[w]|
    ensures |r| == |targets[0]| + |targets[1]|
  {
    targets[w][..c] + targets[(w + 1) % 2] + targets[w][c..]
  }

  /**
   * The combination is the target word around the other word: taking the
   * inserted word out again gives back the target word.
   */
  lemma CombinationRoundTrip(targets: seq<string>, w: int, c: int)
    requires |targets| == 2 && 0 <= w < 2 && 0 <= c <= |targets[w]|
    ensures var r := Combination(targets, w, c);
            var other := targets[1 - w];
            r[c..c + |other|] == other &&
            r[..c] + r[c + |other|..] == targets[w]
  {
    var r := Combination(targets, w, c);
    var other := targets[1 - w];
    assert (w + 1) % 2 == 1 - w;
    assert r[..c] == targets[w][..c];
    assert r[c + |other|..] == targets[w][c..];
    assert targets[w][..c] + targets[w][c..] == targets[w];
  }

  /** The combinations quoted by the puzzle's tests. */
  lemma CombinationExamples()
    ensures Combination(["UNABLE", "COMFORT"], 0, 2) == "UNCOMFORTABLE"
    ensures Combination(["COMFORT", "UNABLE"], 1, 2) == "UNCOMFORTABLE"
  {
  }

  /**
   * What the constructor makes of a clue: an empty word fails first (its
   * charAt(0) throws), then fewer than two words (words[1] is out of
   * bounds); otherwise a new, unsolved puzzle with no delay whose targets
   * are those of the split clue, whose clue is cleared exactly when it had
   * two words, and which holds the given total score.
   */
  predicate ParsedFrom(clue: string, totalScore: real, r: Result<Puzzle, ClueError>)
    reads if r.Success? then {r.value} else {}
  {
    var ws := Split(clue);
    if exists i :: 0 <= i < |ws| && ws[i] == "" then r == Failure(EmptyWord)
    else if |ws| < 2 then r == Failure(TooFewWords)
    else
      r.Success? && r.value.targets == Targets(ws) &&
      r.value.clue == (if |ws| == 2 then "" else clue) &&
      r.value.totalScore == totalScore && r.value.delay == 0.0 && !r.value.isSolved &&
      r.value.targetWord == 0 && r.value.targetCharacter == 0
  }

  class Puzzle {
    var clue: string
    const targets: seq<string>
    var targetWord: int
    var targetCharacter: int
    var isSolved: bool
    /** Seconds taken so far, as an exact number rather than a float. */
    var delay: real
    /** The total score carried between puzzles, as an exact number. */
    var totalScore: real

    constructor (clue: string, targets: seq<string>, totalScore: real)
      ensures this.clue == clue && this.targets == targets && this.totalScore == totalScore
      ensures targetWord == 0 && targetCharacter == 0 && !isSolved && delay == 0.0
    {
      this.clue := clue;
      this.targets := targets;
      this.totalScore := totalScore;
      targetWord, targetCharacter := 0, 0;
      isSolved, delay := false, 0.0;
    }

    /**
     * The constructor's loop: the stripped starred words overwrite the front
     * of the word array, in order; it fails at the first word with no first
     * character.
     */
    static method MoveStarred(words: array<string>) returns (ok: bool)
      modifies words
      ensures ok <==> forall i :: 0 <= i < words.Length ==> old(words[i]) != ""
      ensures ok ==> words[..] == Compacted(old(words[..]))
    {
      ghost var original := words[..];
      var targetPosition := 0;
      var i := 0;
      while i < words.Length
        invariant 0 <= i <= words.Length
        invariant forall j :: 0 <= j < i ==> original[j] != ""
        invariant targetPosition == |StarredTargets(original[..i])| <= i
        invariant words[..targetPosition] == StarredTargets(original[..i])
        invariant words[targetPosition..] == original[targetPosition..]
      {
        var word := words[i];
        assert word == original[i];
        assert original[..i + 1][..i] == original[..i];
        if word == "" {
          // charAt(0) of an empty word throws.
          return false;
        }
        if word[0] == '*' {
          words[targetPosition] := RemoveNonWord(word);
          targetPosition := targetPosition + 1;
        }
        i := i + 1;
      }
      assert original[..words.Length] == original;
      return true;
    }

    /**
     * The constructor's parsing: split the clue, move the stripped starred
     * words to the front of the word array, take the first two entries as
     * the targets, and clear a clue of exactly two words.
     */
    static method Parse(clue: string, totalScore: real) returns (r: Result<Puzzle, ClueError>)
      ensures ParsedFrom(clue, totalScore, r)
      ensures r.Success? ==> fresh(r.value)
    {
      var split := Split(clue);
      var words := new string[|split|](i requires 0 <= i < |split| => split[i]);
      assert words[..] == split;
      var ok := MoveStarred(words);
      if !ok {
        assert exists i :: 0 <= i < |split| && split[i] == "";
        return Failure(EmptyWord);
      }
      assert forall i :: 0 <= i < |split| ==> split[i] != "";
      if words.Length < 2 {
        // words[1] is out of bounds.
        return Failure(TooFewWords);
      }
      ghost var compacted := Compacted(split);
      assert words[0] == compacted[0] && words[1] == compacted[1];
      var targets := [Upper(words[0]), Upper(words[1])];
      assert targets == Targets(split);
      var newClue := if words.Length == 2 then "" else clue;
      var p := new Puzzle(newClue, targets, totalScore);
      r := Success(p);
      assert r.value.targets == Targets(split);
    }

    /** Puzzle(clue): a first puzzle, with a total score of zero. */
    static method New(clue: string) returns (r: Result<Puzzle, ClueError>)
      ensures ParsedFrom(clue, 0.0, r)
      ensures r.Success? ==> fresh(r.value)
    {
      r := Parse(clue, 0.0);
    }

    /** Puzzle(clue, previous): the total score is carried over from the previous puzzle. */
    static method NewAfter(clue: string, previous: Puzzle) returns (r: Result<Puzzle, ClueError>)
      ensures ParsedFrom(clue, previous.totalScore, r)
      ensures r.Success? ==> fresh(r.value)
    {
      r := Parse(clue, previous.totalScore);
    }

    method SetTargetWord(targetWord: int)
      modifies this`targetWord
      ensures this.targetWord == targetWord
    {
      this.targetWord := targetWord;
    }

    method SetTargetCharacter(targetCharacter: int)
      modifies this`targetCharacter
      ensures this.targetCharacter == targetCharacter
    {
      this.targetCharacter := targetCharacter;
    }

    function GetTarget(wordIndex: int): string
      reads this
      requires |targets| == 2 && 0 <= wordIndex < 2
    {
      targets[wordIndex]
    }

    /**
     * getCombination: the other target sits at the target character, and
     * taking it out leaves the target word.
     */
    function GetCombination(): (r: string)
      reads this
      requires |targets| == 2 && 0 <= targetWord < 2 && 0 <= targetCharacter <= |targets[targetWord]|
      ensures |r| == |targets[0]| + |targets[1]|
      ensures r[targetCharacter..targetCharacter + |targets[1 - targetWord]|] == targets[1 - targetWord]
      ensures r[..targetCharacter] + r[targetCharacter + |targets[1 - targetWord]|..] == targets[targetWord]
    {
      CombinationRoundTrip(targets, targetWord, targetCharacter);
      Combination(targets, targetWord, targetCharacter)
    }

    /** setSolved: only the flag; adding the score to the total is not part of this model. */
    method SetSolved(isSolved: bool)
      modifies this`isSolved
      ensures this.isSolved == isSolved
    {
      this.isSolved := isSolved;
    }

    /** adjustScore: the delay grows by the elapsed seconds only while the puzzle is unsolved. */
    method AdjustScore(seconds: real)
      modifies this`delay
      ensures delay == if isSolved then old(delay) else old(delay) + seconds
    {
      if !isSolved {
        delay := delay + seconds;
      }
    }
  }
}
