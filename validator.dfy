/**
  The row validator `validate_movie`: eight field rules run in a fixed order, each
  contributing at most one message, and the messages joined with "; ". `Rule` says what
  each rule concludes about its field's value and `Message` what it then reports;
  `Validate` is the resulting verdict and `ValidateMovie` computes it step by step, as
  the source does.
 */
module Validator {

  import opened Wrappers
  import opened Text
  import opened Numeric
  import opened Coerce
  import opened Records

  datatype Field = Title | Rank | Year | Runtime | Rating | Votes | Revenue | Metascore

  /** The order in which the rules run, and so the order of the messages. */
  const FieldOrder: seq<Field> := [Title, Rank, Year, Runtime, Rating, Votes, Revenue, Metascore]

  /** Where a field stands in `FieldOrder`. */
  function Position(f: Field): (p: nat)
    ensures p < |FieldOrder| && FieldOrder[p] == f
  {
    match f
    case Title => 0
    case Rank => 1
    case Year => 2
    case Runtime => 3
    case Rating => 4
    case Votes => 5
    case Revenue => 6
    case Metascore => 7
  }

  /** What a rule concludes about its field. */
  datatype Outcome = Pass | Missing | Malformed | OutOfRange

  const Separator := "; "

  const MissingTitle := "Missing Title"
  const RankNotInteger := "Rank is not an integer"
  const RankNotPositive := "Rank must be positive"
  const YearNotInteger := "Year is not an integer"
  const YearOutOfRange := "Year out of allowed range"
  const MissingRuntime := "Missing Runtime"
  const RuntimeNotInteger := "Runtime is not an integer"
  const RuntimeOutOfRange := "Runtime out of range 1\U{2013}400 minutes"
  const MissingRating := "Missing Rating"
  const RatingNotNumber := "Rating is not a number"
  const RatingOutOfRange := "Rating out of range 0\U{2013}10"
  const MissingVotes := "Missing Votes"
  const VotesNotInteger := "Votes is not an integer"
  const VotesNegative := "Votes must be non-negative"
  const MissingRevenue := "Missing Revenue"
  const RevenueNotNumber := "Revenue is not a number"
  const RevenueNegative := "Revenue must be non-negative"
  const MissingMetascore := "Missing Metascore"
  const MetascoreNotInteger := "Metascore is not an integer"
  const MetascoreOutOfRange := "Metascore out of range 0\U{2013}100"

  /** `int(row.get(key))`, with `None` for both the `TypeError` an absent value raises and
      the `ValueError` a non-literal raises. */
  function IntOf(v: Option<string>): Option<int> {
    if v.None? then None else ParseInt(v.value)
  }

  /** The priority the five required numeric rules share: missing first, else malformed,
      else out of range. `stripped` is the stripped raw value. */
  function Grade(stripped: string, parsed: bool, inRange: bool): Outcome {
    if stripped == "" then Missing
    else if !parsed then Malformed
    else if !inRange then OutOfRange
    else Pass
  }

  /** The key under which a field's value is looked up. */
  function KeyOf(f: Field): string {
    match f
    case Title => TitleKey
    case Rank => RankKey
    case Year => YearKey
    case Runtime => RuntimeKey
    case Rating => RatingKey
    case Votes => VotesKey
    case Revenue => RevenueKey
    case Metascore => MetascoreKey
  }

  /** The rule for field `f`, applied to the value `v` stored under its key. */
  function Rule(f: Field, v: Option<string>): Outcome {
    match f
    case Title => TitleRule(v)
    case Rank => RankRule(v)
    case Year => YearRule(v)
    case Runtime => RuntimeRule(v)
    case Rating => RatingRule(v)
    case Votes => VotesRule(v)
    case Revenue => RevenueRule(v)
    case Metascore => MetascoreRule(v)
  }

  /** Title: missing when absent or empty once stripped. */
  function TitleRule(v: Option<string>): Outcome {
    if StripOr(v) == "" then Missing else Pass
  }

  /** Rank: `int(v)` must succeed and be positive. */
  function RankRule(v: Option<string>): Outcome {
    var n := IntOf(v);
    if n.None? then Malformed else if n.value <= 0 then OutOfRange else Pass
  }

  /** Year: `int(v)` must succeed and lie in 1900..2030. */
  function YearRule(v: Option<string>): Outcome {
    var n := IntOf(v);
    if n.None? then Malformed else if n.value < 1900 || n.value > 2030 then OutOfRange else Pass
  }

  /** Runtime: present, an integer, and in 1..400. */
  function RuntimeRule(v: Option<string>): Outcome {
    var s := StripOr(v);
    var n := ParseInt(s);
    Grade(s, n.Some?, n.Some? && !(n.value <= 0 || n.value > 400))
  }

  /** Rating: present, a number, and in 0..10. */
  function RatingRule(v: Option<string>): Outcome {
    var s := StripOr(v);
    var x := ParseFloat(s);
    Grade(s, x.Some?, x.Some? && !(x.value < 0.0 || x.value > 10.0))
  }

  /** Votes: present, an integer, and not negative. */
  function VotesRule(v: Option<string>): Outcome {
    var s := StripOr(v);
    var n := ParseInt(s);
    Grade(s, n.Some?, n.Some? && !(n.value < 0))
  }

  /** Revenue: present, a number, and not negative. */
  function RevenueRule(v: Option<string>): Outcome {
    var s := StripOr(v);
    var x := ParseFloat(s);
    Grade(s, x.Some?, x.Some? && !(x.value < 0.0))
  }

  /** Metascore: present, an integer, and in 0..100. */
  function MetascoreRule(v: Option<string>): Outcome {
    var s := StripOr(v);
    var n := ParseInt(s);
    Grade(s, n.Some?, n.Some? && !(n.value < 0 || n.value > 100))
  }

  /** The rule for field `f`, applied to `row`. */
  function Check(row: RawRecord, f: Field): Outcome {
    Rule(f, Get(row, KeyOf(f)))
  }

  /** The message a failed rule reports. */
  function Message(f: Field, o: Outcome): string
    requires o != Pass
  {
    match f
    case Title => MissingTitle
    case Rank => if o == OutOfRange then RankNotPositive else RankNotInteger
    case Year => if o == OutOfRange then YearOutOfRange else YearNotInteger
    case Runtime =>
      if o == Missing then MissingRuntime else if o == Malformed then RuntimeNotInteger else RuntimeOutOfRange
    case Rating =>
      if o == Missing then MissingRating else if o == Malformed then RatingNotNumber else RatingOutOfRange
    case Votes =>
      if o == Missing then MissingVotes else if o == Malformed then VotesNotInteger else VotesNegative
    case Revenue =>
      if o == Missing then MissingRevenue else if o == Malformed then RevenueNotNumber else RevenueNegative
    case Metascore =>
      if o == Missing then MissingMetascore else if o == Malformed then MetascoreNotInteger else MetascoreOutOfRange
  }

  /** The outcomes a rule can actually reach when it fails: Title is only ever missing,
      Rank and Year are never "missing". */
  predicate Reachable(f: Field, o: Outcome) {
    && o != Pass
    && (f == Title ==> o == Missing)
    && (f == Rank || f == Year ==> o != Missing)
  }

  /** What a rule with outcome `o` contributes to the error list. */
  function Report(f: Field, o: Outcome): seq<string> {
    if o == Pass then [] else [Message(f, o)]
  }

  /** The outcomes of all eight rules on one row. */
  datatype Outcomes = Outcomes(
    title: Outcome, rank: Outcome, year: Outcome, runtime: Outcome,
    rating: Outcome, votes: Outcome, revenue: Outcome, metascore: Outcome)
  {
    function At(f: Field): Outcome {
      match f
      case Title => title
      case Rank => rank
      case Year => year
      case Runtime => runtime
      case Rating => rating
      case Votes => votes
      case Revenue => revenue
      case Metascore => metascore
    }
  }

  /** The eight rules applied to `row`. */
  function Assess(row: RawRecord): Outcomes {
    Outcomes(
      TitleRule(Get(row, TitleKey)), RankRule(Get(row, RankKey)),
      YearRule(Get(row, YearKey)), RuntimeRule(Get(row, RuntimeKey)),
      RatingRule(Get(row, RatingKey)), VotesRule(Get(row, VotesKey)),
      RevenueRule(Get(row, RevenueKey)), MetascoreRule(Get(row, MetascoreKey)))
  }

  /** Each component of `Assess(row)` is its field's rule applied to the row. */
  lemma AssessChecks(row: RawRecord)
    ensures forall f: Field :: Assess(row).At(f) == Check(row, f)
  {
    forall f: Field ensures Assess(row).At(f) == Check(row, f) {
      match f
      case Title =>
      case Rank =>
      case Year =>
      case Runtime =>
      case Rating =>
      case Votes =>
      case Revenue =>
      case Metascore =>
    }
  }

  /** The field itself if its rule fails, otherwise nothing. */
  function Failed(t: Outcomes, f: Field): seq<Field> {
    if t.At(f) != Pass then [f] else []
  }

  /** The fields whose rule fails, in rule order. */
  function FailingFields(t: Outcomes): seq<Field> {
    Failed(t, Title) + Failed(t, Rank) + Failed(t, Year) + Failed(t, Runtime)
      + Failed(t, Rating) + Failed(t, Votes) + Failed(t, Revenue) + Failed(t, Metascore)
  }

  /** What the rules for `fs` report, in the order of `fs`. */
  function MessagesOf(t: Outcomes, fs: seq<Field>): seq<string> {
    if fs == [] then [] else MessagesOf(t, fs[..|fs| - 1]) + Report(fs[|fs| - 1], t.At(fs[|fs| - 1]))
  }

  /** The messages of the failing rules, in rule order. */
  function Messages(t: Outcomes): seq<string> {
    MessagesOf(t, FailingFields(t))
  }

  lemma {:induction false} MessagesOfAppend(t: Outcomes, a: seq<Field>, b: seq<Field>)
    ensures MessagesOf(t, a + b) == MessagesOf(t, a) + MessagesOf(t, b)
  {
    if b == [] {
      assert a + b == a;
    } else {
      var b' := b[..|b| - 1];
      assert (a + b)[..|a + b| - 1] == a + b';
      MessagesOfAppend(t, a, b');
    }
  }

  /** The messages of all eight rules, written out in rule order: what `validate_movie`
      accumulates. */
  lemma MessagesUnrolled(t: Outcomes)
    ensures Messages(t)
         == Report(Title, t.title) + Report(Rank, t.rank) + Report(Year, t.year)
          + Report(Runtime, t.runtime) + Report(Rating, t.rating) + Report(Votes, t.votes)
          + Report(Revenue, t.revenue) + Report(Metascore, t.metascore)
  {
    var f1, f2, f3, f4 := Failed(t, Title), Failed(t, Rank), Failed(t, Year), Failed(t, Runtime);
    var f5, f6, f7, f8 := Failed(t, Rating), Failed(t, Votes), Failed(t, Revenue), Failed(t, Metascore);
    forall f | true ensures MessagesOf(t, Failed(t, f)) == Report(f, t.At(f)) {
      if t.At(f) != Pass {
        assert Failed(t, f)[..0] == [];
      }
    }
    MessagesOfAppend(t, f1 + f2 + f3 + f4 + f5 + f6 + f7, f8);
    MessagesOfAppend(t, f1 + f2 + f3 + f4 + f5 + f6, f7);
    MessagesOfAppend(t, f1 + f2 + f3 + f4 + f5, f6);
    MessagesOfAppend(t, f1 + f2 + f3 + f4, f5);
    MessagesOfAppend(t, f1 + f2 + f3, f4);
    MessagesOfAppend(t, f1 + f2, f3);
    MessagesOfAppend(t, f1, f2);
  }

  /** `validate_movie`'s result `(is_valid, error_reason)`. */
  datatype Verdict = Verdict(isValid: bool, reason: string)

  /** The verdict on `row`: accepted with "" when no rule fails, otherwise rejected with
      the "; "-join of the failed rules' messages. */
  function Validate(row: RawRecord): Verdict {
    VerdictOf(Assess(row))
  }

  /** The verdict the outcomes `t` of the eight rules lead to. */
  function VerdictOf(t: Outcomes): Verdict {
    var ms := Messages(t);
    if ms != [] then Verdict(false, Join(Separator, ms)) else Verdict(true, "")
  }

  /** The title rule: "Missing Title" when the stripped title is empty. */
  method TitleErrors(row: RawRecord) returns (es: seq<string>)
    ensures es == Report(Title, TitleRule(Get(row, TitleKey)))
  {
    es := [];
    var title := StripOr(Get(row, TitleKey));
    if title == "" {
      es := [MissingTitle];
    }
  }

  /** The rank rule: `int(row.get("Rank"))` must succeed and be positive. */
  method RankErrors(row: RawRecord) returns (es: seq<string>)
    ensures es == Report(Rank, RankRule(Get(row, RankKey)))
  {
    es := [];
    var rank := IntOf(Get(row, RankKey));
    if rank.None? {
      es := [RankNotInteger];
    } else if rank.value <= 0 {
      es := [RankNotPositive];
    }
  }

  /** The year rule: `int(row.get("Year"))` must succeed and lie in 1900..2030. */
  method YearErrors(row: RawRecord) returns (es: seq<string>)
    ensures es == Report(Year, YearRule(Get(row, YearKey)))
  {
    es := [];
    var year := IntOf(Get(row, YearKey));
    if year.None? {
      es := [YearNotInteger];
    } else if year.value < 1900 || year.value > 2030 {
      es := [YearOutOfRange];
    }
  }

  /** The runtime rule: present, an integer, and in 1..400. */
  method RuntimeErrors(row: RawRecord) returns (es: seq<string>)
    ensures es == Report(Runtime, RuntimeRule(Get(row, RuntimeKey)))
  {
    es := [];
    var raw := StripOr(Get(row, RuntimeKey));
    if raw == "" {
      es := [MissingRuntime];
    } else {
      var runtime := ParseInt(raw);
      if runtime.None? {
        es := [RuntimeNotInteger];
      } else if runtime.value <= 0 || runtime.value > 400 {
        es := [RuntimeOutOfRange];
      }
    }
  }

  /** The rating rule: present, a number, and in 0..10. */
  method RatingErrors(row: RawRecord) returns (es: seq<string>)
    ensures es == Report(Rating, RatingRule(Get(row, RatingKey)))
  {
    es := [];
    var raw := StripOr(Get(row, RatingKey));
    if raw == "" {
      es := [MissingRating];
    } else {
      var rating := ParseFloat(raw);
      if rating.None? {
        es := [RatingNotNumber];
      } else if rating.value < 0.0 || rating.value > 10.0 {
        es := [RatingOutOfRange];
      }
    }
  }

  /** The votes rule: present, an integer, and not negative. */
  method VotesErrors(row: RawRecord) returns (es: seq<string>)
    ensures es == Report(Votes, VotesRule(Get(row, VotesKey)))
  {
    es := [];
    var raw := StripOr(Get(row, VotesKey));
    if raw == "" {
      es := [MissingVotes];
    } else {
      var votes := ParseInt(raw);
      if votes.None? {
        es := [VotesNotInteger];
      } else if votes.value < 0 {
        es := [VotesNegative];
      }
    }
  }

  /** The revenue rule: present, a number, and not negative. */
  method RevenueErrors(row: RawRecord) returns (es: seq<string>)
    ensures es == Report(Revenue, RevenueRule(Get(row, RevenueKey)))
  {
    es := [];
    var raw := StripOr(Get(row, RevenueKey));
    if raw == "" {
      es := [MissingRevenue];
    } else {
      var revenue := ParseFloat(raw);
      if revenue.None? {
        es := [RevenueNotNumber];
      } else if revenue.value < 0.0 {
        es := [RevenueNegative];
      }
    }
  }

  /** The metascore rule: present, an integer, and in 0..100. */
  method MetascoreErrors(row: RawRecord) returns (es: seq<string>)
    ensures es == Report(Metascore, MetascoreRule(Get(row, MetascoreKey)))
  {
    es := [];
    var raw := StripOr(Get(row, MetascoreKey));
    if raw == "" {
      es := [MissingMetascore];
    } else {
      var metascore := ParseInt(raw);
      if metascore.None? {
        es := [MetascoreNotInteger];
      } else if metascore.value < 0 || metascore.value > 100 {
        es := [MetascoreOutOfRange];
      }
    }
  }

  /** `validate_movie`: runs the eight rules in turn, appending each failed rule's message
      to `errors`, then joins them with "; ". */
  method ValidateMovie(row: RawRecord) returns (isValid: bool, reason: string)
    ensures Verdict(isValid, reason) == Validate(row)
  {
    var errors: seq<string> := [];
    var es := TitleErrors(row);
    errors := errors + es;
    assert errors == es;
    es := RankErrors(row);
    errors := errors + es;
    es := YearErrors(row);
    errors := errors + es;
    es := RuntimeErrors(row);
    errors := errors + es;
    es := RatingErrors(row);
    errors := errors + es;
    es := VotesErrors(row);
    errors := errors + es;
    es := RevenueErrors(row);
    errors := errors + es;
    es := MetascoreErrors(row);
    errors := errors + es;
    MessagesUnrolled(Assess(row));

    if errors != [] {
      return false, Join(Separator, errors);
    }
    return true, "";
  }

  // ----- What each rule means, in terms of the coercions `to_int` / `to_float` -----

  /** What it takes for the rule of `f` to pass on the value `v`, stated through the
      shared coercions: a non-blank title, and otherwise a number within the field's
      bounds. */
  predicate Admits(f: Field, v: Option<string>) {
    match f
    case Title => !Blank(v)
    case Rank => ToInt(v).Value? && ToInt(v).value > 0
    case Year => ToInt(v).Value? && 1900 <= ToInt(v).value <= 2030
    case Runtime => ToInt(v).Value? && 1 <= ToInt(v).value <= 400
    case Rating => ToFloat(v).Value? && 0.0 <= ToFloat(v).value <= 10.0
    case Votes => ToInt(v).Value? && ToInt(v).value >= 0
    case Revenue => ToFloat(v).Value? && ToFloat(v).value >= 0.0
    case Metascore => ToInt(v).Value? && 0 <= ToInt(v).value <= 100
  }

  /** `int(v)` inside the Rank and Year rules agrees with `to_int`: it succeeds exactly
      when `to_int` gives a number, and then with that number. */
  lemma IntOfIsToInt(v: Option<string>)
    ensures IntOf(v).Some? <==> ToInt(v).Value?
    ensures IntOf(v).Some? ==> IntOf(v).value == ToInt(v).value
  {
    if v.Some? && Blank(v) {
      BlankIffSpaces(v);
      BlankIsNoNumber(v.value);
    }
  }

  /** For the five numeric rules, parsing the stripped value is parsing the value. */
  lemma StrippedParses(v: Option<string>)
    requires !Blank(v)
    ensures ParseInt(StripOr(v)) == ParseInt(v.value)
    ensures ParseFloat(StripOr(v)) == ParseFloat(v.value)
  {
    ParseIntStripped(v.value);
    ParseFloatStripped(v.value);
  }

  /** A rule passes exactly when its field is admissible. */
  lemma PassIffAdmits(f: Field, v: Option<string>)
    ensures Rule(f, v) == Pass <==> Admits(f, v)
  {
    match f
    case Title =>
    case Rank => IntOfIsToInt(v);
    case Year => IntOfIsToInt(v);
    case Runtime => NumericPassIffAdmits(f, v);
    case Rating => NumericPassIffAdmits(f, v);
    case Votes => NumericPassIffAdmits(f, v);
    case Revenue => NumericPassIffAdmits(f, v);
    case Metascore => NumericPassIffAdmits(f, v);
  }

  lemma NumericPassIffAdmits(f: Field, v: Option<string>)
    requires f in {Runtime, Rating, Votes, Revenue, Metascore}
    ensures Rule(f, v) == Pass <==> Admits(f, v)
  {
    if !Blank(v) {
      StrippedParses(v);
    }
  }

  /** For the five rules that first test for presence, the outcome is decided by the
      coercion: "missing" is no value, "malformed" is the error the coercion raises, and
      "out of range" is a number outside the bounds. */
  lemma OutcomeByCoercion(f: Field, v: Option<string>)
    requires f in {Runtime, Rating, Votes, Revenue, Metascore}
    ensures Rule(f, v) == Missing <==> ToInt(v).NoValue?
    ensures Rule(f, v) == Missing <==> ToFloat(v).NoValue?
    ensures f in {Runtime, Votes, Metascore} ==> (Rule(f, v) == Malformed <==> ToInt(v).FormatError?)
    ensures f in {Rating, Revenue} ==> (Rule(f, v) == Malformed <==> ToFloat(v).FormatError?)
    ensures Rule(f, v) == OutOfRange <==> !Admits(f, v) && (if f in {Rating, Revenue} then ToFloat(v).Value? else ToInt(v).Value?)
  {
    PassIffAdmits(f, v);
    if !Blank(v) {
      StrippedParses(v);
    }
  }

  /** The Rank and Year rules never report a value as missing: an absent or blank value
      is "not an integer". */
  lemma RankYearNeverMissing(f: Field, v: Option<string>)
    requires f == Rank || f == Year
    ensures Rule(f, v) != Missing
    ensures Rule(f, v) == Malformed <==> !ToInt(v).Value?
  {
    IntOfIsToInt(v);
  }

  /** Every outcome a rule actually produces is one its message table covers. */
  lemma OutcomesReachable(f: Field, v: Option<string>)
    requires Rule(f, v) != Pass
    ensures Reachable(f, Rule(f, v))
  {
  }

  // ----- The failing rules and the reason -----

  /** A field is listed among the failing ones exactly when its rule fails. */
  lemma FailingFieldsAre(t: Outcomes, f: Field)
    ensures f in FailingFields(t) <==> t.At(f) != Pass
  {
    var p1, p2 := Failed(t, Title) + Failed(t, Rank) + Failed(t, Year) + Failed(t, Runtime),
                  Failed(t, Rating) + Failed(t, Votes) + Failed(t, Revenue) + Failed(t, Metascore);
    assert FailingFields(t) == p1 + p2;
    assert f in p1 <==> f in {Title, Rank, Year, Runtime} && t.At(f) != Pass;
    assert f in p2 <==> f in {Rating, Votes, Revenue, Metascore} && t.At(f) != Pass;
  }

  /** Positions strictly increase along `fs`: rule order, no rule twice. */
  predicate InRuleOrder(fs: seq<Field>) {
    forall i, j :: 0 <= i < j < |fs| ==> Position(fs[i]) < Position(fs[j])
  }

  /** Every field in `fs` comes before position `n`. */
  predicate Below(fs: seq<Field>, n: nat) {
    forall i :: 0 <= i < |fs| ==> Position(fs[i]) < n
  }

  lemma OrderStep(t: Outcomes, fs: seq<Field>, f: Field)
    requires InRuleOrder(fs) && Below(fs, Position(f))
    ensures InRuleOrder(fs + Failed(t, f)) && Below(fs + Failed(t, f), Position(f) + 1)
  {
  }

  /** The failing fields are listed in rule order, each at most once. */
  lemma FailingFieldsOrdered(t: Outcomes)
    ensures InRuleOrder(FailingFields(t))
  {
    var p := Failed(t, Title);
    OrderStep(t, [], Title);
    assert [] + p == p;
    OrderStep(t, p, Rank);
    p := p + Failed(t, Rank);
    OrderStep(t, p, Year);
    p := p + Failed(t, Year);
    OrderStep(t, p, Runtime);
    p := p + Failed(t, Runtime);
    OrderStep(t, p, Rating);
    p := p + Failed(t, Rating);
    OrderStep(t, p, Votes);
    p := p + Failed(t, Votes);
    OrderStep(t, p, Revenue);
    p := p + Failed(t, Revenue);
    OrderStep(t, p, Metascore);
  }

  /** For fields that all fail, `MessagesOf` has one message per field, in their order. */
  lemma {:induction false} MessagesOfFailing(t: Outcomes, fs: seq<Field>)
    requires forall i :: 0 <= i < |fs| ==> t.At(fs[i]) != Pass
    ensures |MessagesOf(t, fs)| == |fs|
    ensures forall i :: 0 <= i < |fs| ==> MessagesOf(t, fs)[i] == Message(fs[i], t.At(fs[i]))
  {
    if fs != [] {
      MessagesOfFailing(t, fs[..|fs| - 1]);
    }
  }

  /** Message `i` is the message of the `i`-th failing field, and there are no others. */
  lemma MessagesMatchFailingFields(t: Outcomes)
    ensures |Messages(t)| == |FailingFields(t)|
    ensures forall i :: 0 <= i < |FailingFields(t)| ==>
      t.At(FailingFields(t)[i]) != Pass && Messages(t)[i] == Message(FailingFields(t)[i], t.At(FailingFields(t)[i]))
  {
    var fs := FailingFields(t);
    forall i | 0 <= i < |fs| ensures t.At(fs[i]) != Pass {
      FailingFieldsAre(t, fs[i]);
    }
    MessagesOfFailing(t, fs);
  }

  /** No message is empty or contains a ';', so that the "; "-join can be taken apart. */
  lemma MessagesPlain(f: Field, o: Outcome)
    requires o != Pass
    ensures Message(f, o) != [] && ';' !in Message(f, o)
  {
    match f
    case Title => TitleMessagesPlain(o);
    case Rank => RankMessagesPlain(o);
    case Year => YearMessagesPlain(o);
    case Runtime => RuntimeMessagesPlain(o);
    case Rating => RatingMessagesPlain(o);
    case Votes => VotesMessagesPlain(o);
    case Revenue => RevenueMessagesPlain(o);
    case Metascore => MetascoreMessagesPlain(o);
  }

  lemma TitleMessagesPlain(o: Outcome)
    requires o != Pass
    ensures Message(Title, o) != [] && ';' !in Message(Title, o)
  {
  }

  lemma RankMessagesPlain(o: Outcome)
    requires o != Pass
    ensures Message(Rank, o) != [] && ';' !in Message(Rank, o)
  {
  }

  lemma YearMessagesPlain(o: Outcome)
    requires o != Pass
    ensures Message(Year, o) != [] && ';' !in Message(Year, o)
  {
  }

  lemma RuntimeMessagesPlain(o: Outcome)
    requires o != Pass
    ensures Message(Runtime, o) != [] && ';' !in Message(Runtime, o)
  {
  }

  lemma RatingMessagesPlain(o: Outcome)
    requires o != Pass
    ensures Message(Rating, o) != [] && ';' !in Message(Rating, o)
  {
  }

  lemma VotesMessagesPlain(o: Outcome)
    requires o != Pass
    ensures Message(Votes, o) != [] && ';' !in Message(Votes, o)
  {
  }

  lemma RevenueMessagesPlain(o: Outcome)
    requires o != Pass
    ensures Message(Revenue, o) != [] && ';' !in Message(Revenue, o)
  {
  }

  lemma MetascoreMessagesPlain(o: Outcome)
    requires o != Pass
    ensures Message(Metascore, o) != [] && ';' !in Message(Metascore, o)
  {
  }

  /** Every message of a row is a plain message. */
  lemma AllMessagesPlain(t: Outcomes)
    ensures forall i :: 0 <= i < |Messages(t)| ==> Messages(t)[i] != [] && ';' !in Messages(t)[i]
  {
    MessagesMatchFailingFields(t);
    forall i | 0 <= i < |Messages(t)| ensures Messages(t)[i] != [] && ';' !in Messages(t)[i] {
      var f := FailingFields(t)[i];
      FailingFieldsAre(t, f);
      MessagesPlain(f, t.At(f));
    }
  }

  /** Outcomes are accepted exactly when all eight are passes, and then, and only then,
      the reason is empty. */
  lemma VerdictPassIff(t: Outcomes)
    ensures VerdictOf(t).isValid <==> forall f: Field :: t.At(f) == Pass
    ensures VerdictOf(t).isValid <==> VerdictOf(t).reason == ""
  {
    MessagesMatchFailingFields(t);
    AllMessagesPlain(t);
    var ms := Messages(t);
    if ms != [] {
      JoinEmpty(Separator, ms);
      FailingFieldsAre(t, FailingFields(t)[0]);
    } else {
      forall f: Field ensures t.At(f) == Pass {
        FailingFieldsAre(t, f);
      }
    }
  }

  /** A row is accepted exactly when all eight rules pass, and then, and only then, the
      reason is empty. */
  lemma AcceptedIffNoRuleFails(row: RawRecord)
    ensures Validate(row).isValid <==> forall f: Field :: Check(row, f) == Pass
    ensures Validate(row).isValid <==> Validate(row).reason == ""
  {
    VerdictPassIff(Assess(row));
    AssessChecks(row);
  }

  /** A row is admissible when every field passes its rule, stated on the coercions. */
  predicate Admissible(row: RawRecord) {
    forall f: Field :: Admits(f, Get(row, KeyOf(f)))
  }

  /** A row is accepted exactly when it is admissible. */
  lemma AcceptedIffAdmissible(row: RawRecord)
    ensures Validate(row).isValid <==> Admissible(row)
  {
    AcceptedIffNoRuleFails(row);
    forall f: Field ensures Check(row, f) == Pass <==> Admits(f, Get(row, KeyOf(f))) {
      PassIffAdmits(f, Get(row, KeyOf(f)));
    }
  }

  /** Splitting a rejected row's reason at "; " gives back its messages, one per failing
      rule. */
  lemma ReasonSplitsIntoMessages(row: RawRecord)
    requires !Validate(row).isValid
    ensures Split(Validate(row).reason, Separator) == Messages(Assess(row))
  {
    var t := Assess(row);
    AllMessagesPlain(t);
    SplitJoin(Separator, Messages(t));
  }

  // ----- Reading the reason back -----

  /** The rule and outcome a message stands for, if it is one of the messages. */
  function RuleOf(m: string): Option<(Field, Outcome)> {
    if m == MissingTitle then Some((Title, Missing))
    else if m == RankNotInteger then Some((Rank, Malformed))
    else if m == RankNotPositive then Some((Rank, OutOfRange))
    else if m == YearNotInteger then Some((Year, Malformed))
    else if m == YearOutOfRange then Some((Year, OutOfRange))
    else if m == MissingRuntime then Some((Runtime, Missing))
    else if m == RuntimeNotInteger then Some((Runtime, Malformed))
    else if m == RuntimeOutOfRange then Some((Runtime, OutOfRange))
    else if m == MissingRating then Some((Rating, Missing))
    else if m == RatingNotNumber then Some((Rating, Malformed))
    else if m == RatingOutOfRange then Some((Rating, OutOfRange))
    else if m == MissingVotes then Some((Votes, Missing))
    else if m == VotesNotInteger then Some((Votes, Malformed))
    else if m == VotesNegative then Some((Votes, OutOfRange))
    else if m == MissingRevenue then Some((Revenue, Missing))
    else if m == RevenueNotNumber then Some((Revenue, Malformed))
    else if m == RevenueNegative then Some((Revenue, OutOfRange))
    else if m == MissingMetascore then Some((Metascore, Missing))
    else if m == MetascoreNotInteger then Some((Metascore, Malformed))
    else if m == MetascoreOutOfRange then Some((Metascore, OutOfRange))
    else None
  }

  /** Each message a rule can report names that rule and outcome and no other: distinct
      rule outcomes never share a message. */
  lemma MessageNamesRule(f: Field, o: Outcome)
    requires Reachable(f, o)
    ensures RuleOf(Message(f, o)) == Some((f, o))
  {
    match f
    case Title => TitleMessageNamesRule(o);
    case Rank => RankMessageNamesRule(o);
    case Year => YearMessageNamesRule(o);
    case Runtime => RuntimeMessageNamesRule(o);
    case Rating => RatingMessageNamesRule(o);
    case Votes => VotesMessageNamesRule(o);
    case Revenue => RevenueMessageNamesRule(o);
    case Metascore => MetascoreMessageNamesRule(o);
  }

  lemma TitleMessageNamesRule(o: Outcome)
    requires Reachable(Title, o)
    ensures RuleOf(Message(Title, o)) == Some((Title, o))
  {
  }

  lemma RankMessageNamesRule(o: Outcome)
    requires Reachable(Rank, o)
    ensures RuleOf(Message(Rank, o)) == Some((Rank, o))
  {
  }

  lemma YearMessageNamesRule(o: Outcome)
    requires Reachable(Year, o)
    ensures RuleOf(Message(Year, o)) == Some((Year, o))
  {
  }

  lemma RuntimeMessageNamesRule(o: Outcome)
    requires Reachable(Runtime, o)
    ensures RuleOf(Message(Runtime, o)) == Some((Runtime, o))
  {
  }

  lemma RatingMessageNamesRule(o: Outcome)
    requires Reachable(Rating, o)
    ensures RuleOf(Message(Rating, o)) == Some((Rating, o))
  {
  }

  lemma VotesMessageNamesRule(o: Outcome)
    requires Reachable(Votes, o)
    ensures RuleOf(Message(Votes, o)) == Some((Votes, o))
  {
  }

  lemma RevenueMessageNamesRule(o: Outcome)
    requires Reachable(Revenue, o)
    ensures RuleOf(Message(Revenue, o)) == Some((Revenue, o))
  {
  }

  lemma MetascoreMessageNamesRule(o: Outcome)
    requires Reachable(Metascore, o)
    ensures RuleOf(Message(Metascore, o)) == Some((Metascore, o))
  {
  }

  /** Outcomes a rule can produce: each failing one is reachable for its field. */
  predicate Attainable(t: Outcomes) {
    forall f: Field :: t.At(f) != Pass ==> Reachable(f, t.At(f))
  }

  /** The rules' outcomes on any row are attainable. */
  lemma AssessAttainable(row: RawRecord)
    ensures Attainable(Assess(row))
  {
    AssessChecks(row);
    forall f: Field | Assess(row).At(f) != Pass ensures Reachable(f, Assess(row).At(f)) {
      OutcomesReachable(f, Get(row, KeyOf(f)));
    }
  }

  /** Among attainable outcomes, a rule's message is listed exactly when that rule
      reached that outcome. */
  lemma MessageListedIffAt(t: Outcomes, f: Field, o: Outcome)
    requires Attainable(t)
    requires Reachable(f, o)
    ensures Message(f, o) in Messages(t) <==> t.At(f) == o
  {
    var ff := FailingFields(t);
    MessagesMatchFailingFields(t);
    if t.At(f) == o {
      FailingFieldsAre(t, f);
      var i :| 0 <= i < |ff| && ff[i] == f;
      assert Messages(t)[i] == Message(f, o);
    }
    if Message(f, o) in Messages(t) {
      var i :| 0 <= i < |Messages(t)| && Messages(t)[i] == Message(f, o);
      var g := ff[i];
      MessageNamesRule(f, o);
      MessageNamesRule(g, t.At(g));
    }
  }

  /** A rule's message appears in a row's messages exactly when that rule reached that
      outcome on the row. */
  lemma MessageListedIff(row: RawRecord, f: Field, o: Outcome)
    requires Reachable(f, o)
    ensures Message(f, o) in Messages(Assess(row)) <==> Check(row, f) == o
  {
    AssessAttainable(row);
    MessageListedIffAt(Assess(row), f, o);
    AssessChecks(row);
  }

  /** A rule that fails on a row rejects it, and its message is among the parts of the
      reason. */
  lemma FailingRuleListed(row: RawRecord, f: Field)
    requires Check(row, f) != Pass
    ensures !Validate(row).isValid
    ensures Message(f, Check(row, f)) in Split(Validate(row).reason, Separator)
  {
    AcceptedIffNoRuleFails(row);
    ReasonSplitsIntoMessages(row);
    OutcomesReachable(f, Get(row, KeyOf(f)));
    MessageListedIff(row, f, Check(row, f));
  }
}
