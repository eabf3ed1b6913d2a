/** The three rows of the validator's test suite, and what the model says about them. */
module Scenarios {
  import opened Wrappers
  import opened Text
  import opened Numeric
  import opened Records
  import opened Validator

  /** A fully valid movie. */
  function GuardiansRow(): RawRecord {
    map[TitleKey := Some("Guardians of the Galaxy"), RankKey := Some("1"), YearKey := Some("2014"),
        RuntimeKey := Some("121"), RatingKey := Some("8.1"), VotesKey := Some("757074"),
        RevenueKey := Some("333.13"), MetascoreKey := Some("76")]
  }

  /** A movie whose revenue is left empty. */
  function MindhornRow(): RawRecord {
    map[TitleKey := Some("Mindhorn"), RankKey := Some("8"), YearKey := Some("2016"),
        RuntimeKey := Some("89"), RatingKey := Some("6.4"), VotesKey := Some("2490"),
        RevenueKey := Some(""), MetascoreKey := Some("60")]
  }

  /** A movie rated above 10. */
  function OverratedRow(): RawRecord {
    map[TitleKey := Some("Fake Overrated Movie"), RankKey := Some("999"), YearKey := Some("2020"),
        RuntimeKey := Some("100"), RatingKey := Some("11.0"), VotesKey := Some("1000"),
        RevenueKey := Some("10.0"), MetascoreKey := Some("50")]
  }

  /** The text of an integer parses back to it, and stripping leaves it alone. */
  lemma IntText(s: string, n: int)
    requires s == IntToString(n) && Strip(s) == s
    ensures IntOf(Some(s)) == Some(n) && StripOr(Some(s)) == s && ParseInt(s) == Some(n)
  {
    ParseIntToString("", n, "");
    assert "" + IntToString(n) + "" == s;
  }

  /** A text of digits, a point and digits parses to the number it writes. */
  lemma DecimalText(whole: string, fraction: string)
    requires whole != [] && AllDigits(whole) && AllDigits(fraction)
    ensures var s := whole + "." + fraction;
      StripOr(Some(s)) == s &&
      ParseFloat(s) == Some(DecimalValue(whole, fraction))
  {
    var s := whole + "." + fraction;
    assert s[0] == whole[0] && IsDigit(s[0]);
    assert s[|s| - 1] == if fraction == [] then '.' else fraction[|fraction| - 1];
    StripUnpadded(s);
    PointAt(whole, fraction);
    assert s[..|whole|] == whole && s[|whole| + 1..] == fraction;
    PointSplits(s, |whole|);
    assert SplitSign(s) == (false, s);
    assert SignedDecimal(s) == UnsignedDecimal(s);
    assert ParseFloat(s) == SignedDecimal(s);
  }

  /** A field's check is its own rule applied to the value under its key. */
  lemma CheckOf(row: RawRecord, f: Field, v: Option<string>)
    requires Get(row, KeyOf(f)) == v
    ensures Check(row, f) == Rule(f, v)
    ensures f == Title ==> Check(row, f) == TitleRule(v)
    ensures f == Rank ==> Check(row, f) == RankRule(v)
    ensures f == Year ==> Check(row, f) == YearRule(v)
    ensures f == Runtime ==> Check(row, f) == RuntimeRule(v)
    ensures f == Rating ==> Check(row, f) == RatingRule(v)
    ensures f == Votes ==> Check(row, f) == VotesRule(v)
    ensures f == Revenue ==> Check(row, f) == RevenueRule(v)
    ensures f == Metascore ==> Check(row, f) == MetascoreRule(v)
  {
  }

  /** The eight values of the valid movie. */
  lemma GuardiansFields()
    ensures Get(GuardiansRow(), TitleKey) == Some("Guardians of the Galaxy")
    ensures Get(GuardiansRow(), RankKey) == Some("1")
    ensures Get(GuardiansRow(), YearKey) == Some("2014")
    ensures Get(GuardiansRow(), RuntimeKey) == Some("121")
    ensures Get(GuardiansRow(), RatingKey) == Some("8.1")
    ensures Get(GuardiansRow(), VotesKey) == Some("757074")
    ensures Get(GuardiansRow(), RevenueKey) == Some("333.13")
    ensures Get(GuardiansRow(), MetascoreKey) == Some("76")
  {
  }

  /** The valid movie passes all eight rules. */
  lemma GuardiansChecks()
    ensures forall f: Field :: Check(GuardiansRow(), f) == Pass
  {
    var row := GuardiansRow();
    GuardiansFields();
    CheckOf(row, Title, Some("Guardians of the Galaxy"));
    CheckOf(row, Rank, Some("1"));
    CheckOf(row, Year, Some("2014"));
    CheckOf(row, Runtime, Some("121"));
    CheckOf(row, Rating, Some("8.1"));
    CheckOf(row, Votes, Some("757074"));
    CheckOf(row, Revenue, Some("333.13"));
    CheckOf(row, Metascore, Some("76"));
    GuardiansTitle();
    GuardiansRank();
    GuardiansYear();
    GuardiansRuntime();
    GuardiansRating();
    GuardiansVotes();
    GuardiansRevenue();
    GuardiansMetascore();
    forall f: Field ensures Check(row, f) == Pass {
      match f
      case Title =>
      case Rank =>
      case Year =>
      case Runtime =>
      case Rating =>
      case Votes =>
      case Revenue =>
      case Metascore =>
    }
  }

  lemma GuardiansTitle()
    ensures TitleRule(Some("Guardians of the Galaxy")) == Pass
  {
    StripUnpadded("Guardians of the Galaxy");
  }

  lemma GuardiansRank()
    ensures RankRule(Some("1")) == Pass
  {
    StripUnpadded("1");
    IntText("1", 1);
  }

  lemma GuardiansYear()
    ensures YearRule(Some("2014")) == Pass
  {
    StripUnpadded("2014");
    IntText("2014", 2014);
  }

  lemma GuardiansRuntime()
    ensures RuntimeRule(Some("121")) == Pass
  {
    StripUnpadded("121");
    IntText("121", 121);
  }

  lemma GuardiansRating()
    ensures RatingRule(Some("8.1")) == Pass
  {
    DecimalText("8", "1");
    assert "8" + "." + "1" == "8.1";
  }

  lemma GuardiansVotes()
    ensures VotesRule(Some("757074")) == Pass
  {
    StripUnpadded("757074");
    IntText("757074", 757074);
  }

  lemma GuardiansRevenue()
    ensures RevenueRule(Some("333.13")) == Pass
  {
    DecimalText("333", "13");
    assert "333" + "." + "13" == "333.13";
    assert DecimalValue("333", "13") >= 0.0;
  }

  lemma GuardiansMetascore()
    ensures MetascoreRule(Some("76")) == Pass
  {
    StripUnpadded("76");
    IntText("76", 76);
  }

  /** The valid movie is accepted with an empty reason. */
  lemma GuardiansAccepted()
    ensures Validate(GuardiansRow()).isValid && Validate(GuardiansRow()).reason == ""
  {
    GuardiansChecks();
    AcceptedIffNoRuleFails(GuardiansRow());
  }

  /** A row whose revenue is missing is rejected, and its reason lists "Missing Revenue". */
  lemma MissingRevenueListed(row: RawRecord)
    requires Check(row, Revenue) == Missing
    ensures !Validate(row).isValid
    ensures MissingRevenue in Split(Validate(row).reason, Separator)
  {
    assert Message(Revenue, Missing) == MissingRevenue;
    FailingRuleListed(row, Revenue);
  }

  /** The revenue of the movie without one is missing. */
  lemma MindhornRevenue()
    ensures Check(MindhornRow(), Revenue) == Missing
  {
    CheckOf(MindhornRow(), Revenue, Some(""));
  }

  /** The movie without revenue is rejected, and its reason lists "Missing Revenue". */
  lemma MindhornRejected()
    ensures !Validate(MindhornRow()).isValid
    ensures MissingRevenue in Split(Validate(MindhornRow()).reason, Separator)
  {
    MindhornRevenue();
    MissingRevenueListed(MindhornRow());
  }

  /** Outcomes where only Revenue fails, as missing, lead to the reason "Missing Revenue"
      alone. */
  lemma RevenueOnlyVerdict(t: Outcomes)
    requires t.At(Title) == Pass && t.At(Rank) == Pass && t.At(Year) == Pass
    requires t.At(Runtime) == Pass && t.At(Rating) == Pass && t.At(Votes) == Pass
    requires t.At(Revenue) == Missing && t.At(Metascore) == Pass
    ensures VerdictOf(t) == Verdict(false, MissingRevenue)
  {
    MessagesUnrolled(t);
    assert Messages(t) == [MissingRevenue];
  }

  /** The values of the movie without revenue. */
  lemma MindhornFields()
    ensures Get(MindhornRow(), TitleKey) == Some("Mindhorn")
    ensures Get(MindhornRow(), RankKey) == Some("8")
    ensures Get(MindhornRow(), YearKey) == Some("2016")
    ensures Get(MindhornRow(), RuntimeKey) == Some("89")
    ensures Get(MindhornRow(), RatingKey) == Some("6.4")
    ensures Get(MindhornRow(), VotesKey) == Some("2490")
    ensures Get(MindhornRow(), RevenueKey) == Some("")
    ensures Get(MindhornRow(), MetascoreKey) == Some("60")
  {
  }

  /** Only the revenue of the movie without one fails. */
  lemma MindhornChecks()
    ensures Check(MindhornRow(), Title) == Pass && Check(MindhornRow(), Rank) == Pass
    ensures Check(MindhornRow(), Year) == Pass && Check(MindhornRow(), Runtime) == Pass
    ensures Check(MindhornRow(), Rating) == Pass && Check(MindhornRow(), Votes) == Pass
    ensures Check(MindhornRow(), Revenue) == Missing && Check(MindhornRow(), Metascore) == Pass
  {
    var row := MindhornRow();
    MindhornFields();
    CheckOf(row, Title, Some("Mindhorn"));
    CheckOf(row, Rank, Some("8"));
    CheckOf(row, Year, Some("2016"));
    CheckOf(row, Runtime, Some("89"));
    CheckOf(row, Rating, Some("6.4"));
    CheckOf(row, Votes, Some("2490"));
    CheckOf(row, Revenue, Some(""));
    CheckOf(row, Metascore, Some("60"));
    MindhornTitle();
    MindhornRank();
    MindhornYear();
    MindhornRuntime();
    MindhornRating();
    MindhornVotes();
    MindhornMetascore();
  }

  /** A row on which only Revenue fails, as missing, is rejected with the reason
      "Missing Revenue" alone. */
  lemma RevenueOnlyReason(row: RawRecord)
    requires Check(row, Title) == Pass && Check(row, Rank) == Pass && Check(row, Year) == Pass
    requires Check(row, Runtime) == Pass && Check(row, Rating) == Pass && Check(row, Votes) == Pass
    requires Check(row, Revenue) == Missing && Check(row, Metascore) == Pass
    ensures Validate(row) == Verdict(false, MissingRevenue)
  {
    AssessChecks(row);
    RevenueOnlyVerdict(Assess(row));
  }

  /** The movie without revenue is rejected for that alone: its reason is exactly
      "Missing Revenue". */
  lemma MindhornReason()
    ensures Validate(MindhornRow()) == Verdict(false, MissingRevenue)
  {
    MindhornChecks();
    RevenueOnlyReason(MindhornRow());
  }

  lemma MindhornTitle()
    ensures TitleRule(Some("Mindhorn")) == Pass
  {
    StripUnpadded("Mindhorn");
  }

  lemma MindhornRank()
    ensures RankRule(Some("8")) == Pass
  {
    StripUnpadded("8");
    IntText("8", 8);
  }

  lemma MindhornYear()
    ensures YearRule(Some("2016")) == Pass
  {
    StripUnpadded("2016");
    IntText("2016", 2016);
  }

  lemma MindhornRuntime()
    ensures RuntimeRule(Some("89")) == Pass
  {
    StripUnpadded("89");
    IntText("89", 89);
  }

  lemma MindhornRating()
    ensures RatingRule(Some("6.4")) == Pass
  {
    DecimalText("6", "4");
    assert "6" + "." + "4" == "6.4";
  }

  lemma MindhornVotes()
    ensures VotesRule(Some("2490")) == Pass
  {
    StripUnpadded("2490");
    IntText("2490", 2490);
  }

  lemma MindhornMetascore()
    ensures MetascoreRule(Some("60")) == Pass
  {
    StripUnpadded("60");
    IntText("60", 60);
  }

  /** A row whose rating is out of range is rejected, and its reason lists the Rating
      range message. */
  lemma RatingOutOfRangeListed(row: RawRecord)
    requires Check(row, Rating) == OutOfRange
    ensures !Validate(row).isValid
    ensures RatingOutOfRange in Split(Validate(row).reason, Separator)
  {
    assert Message(Rating, OutOfRange) == RatingOutOfRange;
    FailingRuleListed(row, Rating);
  }

  lemma ElevenOutOfRange()
    ensures RatingRule(Some("11.0")) == OutOfRange
  {
    DecimalText("11", "0");
    assert "11" + "." + "0" == "11.0";
    assert DigitsValue("11") == 11;
  }

  /** The rating of the movie rated 11.0 is out of range. */
  lemma OverratedRating()
    ensures Check(OverratedRow(), Rating) == OutOfRange
  {
    CheckOf(OverratedRow(), Rating, Some("11.0"));
    ElevenOutOfRange();
  }

  /** The movie rated 11.0 is rejected, and its reason lists the Rating range message. */
  lemma OverratedRejected()
    ensures !Validate(OverratedRow()).isValid
    ensures RatingOutOfRange in Split(Validate(OverratedRow()).reason, Separator)
  {
    OverratedRating();
    RatingOutOfRangeListed(OverratedRow());
  }

  /** Outcomes where only Title (missing), Rank (not positive) and Year (out of range)
      fail lead to a rejection with exactly those three messages, in rule order. */
  lemma TitleRankYearVerdict(t: Outcomes)
    requires t.At(Title) == Missing && t.At(Rank) == OutOfRange && t.At(Year) == OutOfRange
    requires t.At(Runtime) == Pass && t.At(Rating) == Pass && t.At(Votes) == Pass
    requires t.At(Revenue) == Pass && t.At(Metascore) == Pass
    ensures VerdictOf(t) == Verdict(false, MissingTitle + Separator + RankNotPositive + Separator + YearOutOfRange)
  {
    MessagesUnrolled(t);
    assert Messages(t) == [MissingTitle, RankNotPositive, YearOutOfRange];
  }

  /** A row whose title is missing, whose rank is not positive and whose year is out of
      range, and which passes every other rule, is rejected with the reason
      "Missing Title; Rank must be positive; Year out of allowed range". */
  lemma TitleRankYearReason(row: RawRecord)
    requires Check(row, Title) == Missing && Check(row, Rank) == OutOfRange && Check(row, Year) == OutOfRange
    requires Check(row, Runtime) == Pass && Check(row, Rating) == Pass && Check(row, Votes) == Pass
    requires Check(row, Revenue) == Pass && Check(row, Metascore) == Pass
    ensures !Validate(row).isValid
    ensures Validate(row).reason == MissingTitle + Separator + RankNotPositive + Separator + YearOutOfRange
  {
    AssessChecks(row);
    TitleRankYearVerdict(Assess(row));
  }

  /** A movie with an empty title, a negative rank and a year before 1900, and otherwise
      the values of the valid movie. */
  function UntitledRow(): RawRecord {
    map[TitleKey := Some(""), RankKey := Some("-5"), YearKey := Some("1850"),
        RuntimeKey := Some("121"), RatingKey := Some("8.1"), VotesKey := Some("757074"),
        RevenueKey := Some("333.13"), MetascoreKey := Some("76")]
  }

  lemma UntitledFields()
    ensures Get(UntitledRow(), TitleKey) == Some("")
    ensures Get(UntitledRow(), RankKey) == Some("-5")
    ensures Get(UntitledRow(), YearKey) == Some("1850")
    ensures Get(UntitledRow(), RuntimeKey) == Some("121")
    ensures Get(UntitledRow(), RatingKey) == Some("8.1")
    ensures Get(UntitledRow(), VotesKey) == Some("757074")
    ensures Get(UntitledRow(), RevenueKey) == Some("333.13")
    ensures Get(UntitledRow(), MetascoreKey) == Some("76")
  {
  }

  lemma UntitledTitle()
    ensures TitleRule(Some("")) == Missing
  {
  }

  lemma UntitledRank()
    ensures RankRule(Some("-5")) == OutOfRange
  {
    StripUnpadded("-5");
    IntText("-5", -5);
  }

  lemma UntitledYear()
    ensures YearRule(Some("1850")) == OutOfRange
  {
    StripUnpadded("1850");
    IntText("1850", 1850);
  }

  /** Title, Rank and Year fail on that movie, and the other rules pass. */
  lemma UntitledChecks()
    ensures Check(UntitledRow(), Title) == Missing && Check(UntitledRow(), Rank) == OutOfRange
    ensures Check(UntitledRow(), Year) == OutOfRange && Check(UntitledRow(), Runtime) == Pass
    ensures Check(UntitledRow(), Rating) == Pass && Check(UntitledRow(), Votes) == Pass
    ensures Check(UntitledRow(), Revenue) == Pass && Check(UntitledRow(), Metascore) == Pass
  {
    var row := UntitledRow();
    UntitledFields();
    CheckOf(row, Title, Some(""));
    CheckOf(row, Rank, Some("-5"));
    CheckOf(row, Year, Some("1850"));
    CheckOf(row, Runtime, Some("121"));
    CheckOf(row, Rating, Some("8.1"));
    CheckOf(row, Votes, Some("757074"));
    CheckOf(row, Revenue, Some("333.13"));
    CheckOf(row, Metascore, Some("76"));
    UntitledTitle();
    UntitledRank();
    UntitledYear();
    GuardiansRuntime();
    GuardiansRating();
    GuardiansVotes();
    GuardiansRevenue();
    GuardiansMetascore();
  }

  /** That movie is rejected with exactly the reason
      "Missing Title; Rank must be positive; Year out of allowed range". */
  lemma UntitledReason()
    ensures !Validate(UntitledRow()).isValid
    ensures Validate(UntitledRow()).reason == "Missing Title; Rank must be positive; Year out of allowed range"
  {
    UntitledChecks();
    TitleRankYearReason(UntitledRow());
    TitleRankYearText();
  }

  /** The three messages joined, written out; one piece at a time, as the solver
      compares strings character by character. */
  lemma TitleRankYearText()
    ensures MissingTitle + Separator + RankNotPositive + Separator + YearOutOfRange
         == "Missing Title; Rank must be positive; Year out of allowed range"
  {
    TitleText();
    RankText();
    SecondSeparatorText();
    YearText();
  }

  lemma TitleText()
    ensures MissingTitle + Separator == "Missing Title; "
  {
  }

  lemma RankText()
    ensures "Missing Title; " + RankNotPositive == "Missing Title; Rank must be positive"
  {
  }

  lemma SecondSeparatorText()
    ensures "Missing Title; Rank must be positive" + Separator == "Missing Title; Rank must be positive; "
  {
  }

  lemma YearText()
    ensures "Missing Title; Rank must be positive; " + YearOutOfRange
         == "Missing Title; Rank must be positive; Year out of allowed range"
  {
  }
}
