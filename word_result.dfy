/**
 * The closed table of ultraghost outcomes: each outcome carries a fixed
 * score and a label shown to the players.
 */
module WordResults {
  import opened Wrappers
  import opened JavaText

  /**
   * The constants of the WordResult enum, in declaration order, and two more
   * (SkipNotImproved and ImprovedSkipTooSoon) that the match code names but
   * the enum of this version does not declare; they have no score or label.
   */
  datatype WordResult =
    | Unknown | NotAWord | TooShort | Valid | NotAMatch
    | Shorter | Earlier | Longer | Later | NotImproved | Skipped | WordFound
    | ImprovementNotAWord | ImprovementNotAMatch | ImprovementTooShort
    | ImprovedSkipNotAWord | ImprovedSkipNotAMatch | ImprovedSkipTooShort
    | SkipNotImproved | ImprovedSkipTooSoon
  {
    /** The constant is declared by the enum. */
    predicate InEnum() {
      !SkipNotImproved? && !ImprovedSkipTooSoon?
    }

    /** A response was given against a real solution but failed a check. */
    predicate IsImprovementFailure() {
      ImprovementNotAWord? || ImprovementNotAMatch? || ImprovementTooShort?
    }

    /** A response was given against a skipped solution but failed a check. */
    predicate IsImprovedSkipFailure() {
      ImprovedSkipNotAWord? || ImprovedSkipNotAMatch? || ImprovedSkipTooShort?
    }

    /** The constant's name in the Java source. */
    function EnumName(): string {
      match this
      case Unknown => "UNKNOWN"
      case NotAWord => "NOT_A_WORD"
      case TooShort => "TOO_SHORT"
      case Valid => "VALID"
      case NotAMatch => "NOT_A_MATCH"
      case Shorter => "SHORTER"
      case Earlier => "EARLIER"
      case Longer => "LONGER"
      case Later => "LATER"
      case NotImproved => "NOT_IMPROVED"
      case Skipped => "SKIPPED"
      case WordFound => "WORD_FOUND"
      case ImprovementNotAWord => "IMPROVEMENT_NOT_A_WORD"
      case ImprovementNotAMatch => "IMPROVEMENT_NOT_A_MATCH"
      case ImprovementTooShort => "IMPROVEMENT_TOO_SHORT"
      case ImprovedSkipNotAWord => "IMPROVED_SKIP_NOT_A_WORD"
      case ImprovedSkipNotAMatch => "IMPROVED_SKIP_NOT_A_MATCH"
      case ImprovedSkipTooShort => "IMPROVED_SKIP_TOO_SHORT"
      case SkipNotImproved => "SKIP_NOT_IMPROVED"
      case ImprovedSkipTooSoon => "IMPROVED_SKIP_TOO_SOON"
    }

    /** The score given in the constant's declaration; 0 when none is given. */
    function Score(): (r: int)
      requires InEnum()
      ensures -1 <= r <= 3
      ensures r < 0 <==> this == WordFound
    {
      match this
      case Shorter => 1
      case Earlier => 2
      case Longer => 3
      case Later => 3
      case NotImproved => 3
      case Skipped => 1
      case WordFound => -1
      case ImprovementNotAWord => 3
      case ImprovementNotAMatch => 3
      case ImprovementTooShort => 3
      case ImprovedSkipNotAWord => 1
      case ImprovedSkipNotAMatch => 1
      case ImprovedSkipTooShort => 1
      case _ => 0
    }

    /** The name given explicitly in the constant's declaration, if any. */
    function ExplicitName(): Option<string> {
      match this
      case ImprovementNotAWord => Some("not a word")
      case ImprovementNotAMatch => Some("not a match")
      case ImprovementTooShort => Some("too short")
      case ImprovedSkipNotAWord => Some("not a word")
      case ImprovedSkipNotAMatch => Some("not a match")
      case ImprovedSkipTooShort => Some("too short")
      case _ => None
    }

    /** The label without its score: the explicit name, or else the default. */
    function BaseName(): string {
      if ExplicitName().Some? then ExplicitName().value else DefaultName(EnumName())
    }

    /** toString(): the base name with the score appended by AddScore. */
    function Label(): (r: string)
      requires InEnum()
      ensures |r| >= |BaseName()| && r[..|BaseName()|] == BaseName()
      ensures r == BaseName() <==> Score() == 0
    {
      AddScore(BaseName(), Score())
    }
  }

  /** name().toLowerCase().replace('_', ' ') on an enum name. */
  function DefaultName(enumName: string): string {
    seq(|enumName|, i requires 0 <= i < |enumName| =>
      if enumName[i] == '_' then ' '
      else if 'A' <= enumName[i] <= 'Z' then (enumName[i] as int + 32) as char
      else enumName[i])
  }

  /** The sign written before a score: "+" when positive; a negative score carries its own "-". */
  function Sign(score: int): string {
    if score > 0 then "+" else ""
  }

  /**
   * addScore: a non-zero score is appended as " (<sign><score>)"; the name
   * is left alone exactly when the score is zero and is always a prefix.
   */
  function AddScore(name: string, score: int): (r: string)
    ensures |r| >= |name| && r[..|name|] == name
    ensures r == name <==> score == 0
    ensures score != 0 ==> r[|name|..] == ScoreSuffix(score)
  {
    if score != 0 then name + ScoreSuffix(score) else name
  }

  /** The text addScore appends for a non-zero score. */
  function ScoreSuffix(score: int): string {
    " (" + Sign(score) + IntToString(score) + ")"
  }

  /** The positions of " (", a one-character sign, the digits and ")" in a suffix. */
  lemma SuffixLayout(sign: char, digits: string)
    ensures var t := " (" + [sign] + digits + ")";
            |t| == |digits| + 4 && t[0] == ' ' && t[1] == '(' && t[2] == sign &&
            t[|t| - 1] == ')' && t[3..|t| - 1] == digits
  {
  }

  lemma PositiveSuffix(score: int)
    requires score > 0
    ensures ScoreSuffix(score) == " (" + ['+'] + Digits(score) + ")"
  {
  }

  lemma NegativeSuffix(score: int)
    requires score < 0
    ensures ScoreSuffix(score) == " (" + ['-'] + Digits(-score) + ")"
  {
    assert IntToString(score) == "-" + Digits(-score);
  }

  /** The appended text is " (", the sign, the digits of the score, and ")". */
  lemma ScoreSuffixShape(score: int)
    requires score != 0
    ensures var t := ScoreSuffix(score);
            |t| > 3 && t[0] == ' ' && t[1] == '(' && t[|t| - 1] == ')' &&
            (score > 0 ==> t[2] == '+' && DigitsValue(t[3..|t| - 1]) == score) &&
            (score < 0 ==> t[2] == '-' && DigitsValue(t[3..|t| - 1]) == -score)
  {
    if score > 0 {
      DigitsRoundTrip(score);
      PositiveSuffix(score);
      SuffixLayout('+', Digits(score));
    } else {
      DigitsRoundTrip(-score);
      NegativeSuffix(score);
      SuffixLayout('-', Digits(-score));
    }
  }

  /** The scores fixed by the enum declaration. */
  lemma ScoreTable()
    ensures Unknown.Score() == 0 && NotAWord.Score() == 0 && TooShort.Score() == 0
    ensures Valid.Score() == 0 && NotAMatch.Score() == 0
    ensures Shorter.Score() == 1 && Earlier.Score() == 2
    ensures Longer.Score() == 3 && Later.Score() == 3 && NotImproved.Score() == 3
    ensures Skipped.Score() == 1 && WordFound.Score() == -1
    ensures forall r: WordResult :: r.IsImprovementFailure() ==> r.Score() == 3
    ensures forall r: WordResult :: r.IsImprovedSkipFailure() ==> r.Score() == 1
  {
  }

  /** The improvement and improved-skip variant of the same check. */
  function SkipVariant(r: WordResult): WordResult
    requires r.IsImprovementFailure()
  {
    match r
    case ImprovementNotAWord => ImprovedSkipNotAWord
    case ImprovementNotAMatch => ImprovedSkipNotAMatch
    case ImprovementTooShort => ImprovedSkipTooShort
  }

  /** Paired outcomes share their base name but score 3 against 1. */
  lemma PairedOutcomes(r: WordResult)
    requires r.IsImprovementFailure()
    ensures SkipVariant(r).IsImprovedSkipFailure()
    ensures SkipVariant(r).BaseName() == r.BaseName()
    ensures r.Score() == 3 && SkipVariant(r).Score() == 1
    ensures r.Label() == r.BaseName() + " (+3)" && SkipVariant(r).Label() == r.BaseName() + " (+1)"
  {
    SmallSuffixes();
    assert r.Label() == AddScore(r.BaseName(), 3);
    assert SkipVariant(r).Label() == AddScore(r.BaseName(), 1);
  }

  /** Labels of the scored comparison outcomes quoted by the game's tests. */
  lemma ScoredLabelExamples()
    ensures Shorter.Label() == "shorter (+1)"
    ensures Longer.Label() == "longer (+3)"
  {
    SmallSuffixes();
    assert Shorter.BaseName() == "shorter";
    ScoredLabel(Shorter, "shorter", 1);
    assert Longer.BaseName() == "longer";
    ScoredLabel(Longer, "longer", 3);
  }

  /** Labels of the challenge outcomes quoted by the game's tests. */
  lemma ChallengeLabelExamples()
    ensures Later.Label() == "later (+3)"
    ensures NotImproved.Label() == "not improved (+3)"
  {
    SmallSuffixes();
    assert Later.BaseName() == "later";
    ScoredLabel(Later, "later", 3);
    assert NotImproved.BaseName() == "not improved";
    ScoredLabel(NotImproved, "not improved", 3);
  }

  /** A scored label is its base name followed by the score's suffix. */
  lemma ScoredLabel(r: WordResult, name: string, score: int)
    requires r.InEnum() && r.BaseName() == name && r.Score() == score && score != 0
    ensures r.Label() == name + ScoreSuffix(score)
  {
  }

  /** The suffixes of the scores the game uses. */
  lemma SmallSuffixes()
    ensures ScoreSuffix(1) == " (+1)" && ScoreSuffix(3) == " (+3)" && ScoreSuffix(-1) == " (-1)"
  {
    assert IntToString(1) == "1" && IntToString(3) == "3" && IntToString(-1) == "-1";
  }

  /** Labels of the failed checks quoted by the game's tests. */
  lemma CheckLabelExamples()
    ensures ImprovementNotAWord.Label() == "not a word (+3)"
    ensures NotAWord.Label() == "not a word"
    ensures NotAMatch.Label() == "not a match"
  {
  }

  /** The one negative score: the sign comes from the digits. */
  lemma NegativeLabelExample()
    ensures WordFound.Label() == "word found (-1)"
  {
  }
}
