/** The quiz of the page (js/js.js, submit handler of `#quizForm`): the ten
    answers are scored against a fixed key, the percentage picks one of four
    feedback tiers, and a ten-item list marks every question right or wrong.
    The DOM is abstracted away: the form is the map of checked values, and the
    results container holds the structure of what is rendered into it. */
module Quiz {

  import opened Options

  /** Number of questions on the form (`totalQuestions`). */
  const TotalQuestions: nat := 10

  /** The form at submit time: question i maps to the `value` of the checked
      radio input of group `q<i>`; a question with no checked input is absent. */
  type Form = map<nat, string>

  /** The fixed answer key (`correctAnswers`), by question number. */
  const AnswerKey: map<nat, string> :=
    map[1 := "a", 2 := "b", 3 := "b", 4 := "c", 5 := "b",
        6 := "b", 7 := "b", 8 := "b", 9 := "b", 10 := "b"]

  /** The match test shared by scoring and feedback: some input is checked and
      its value is strictly equal to the key's letter for that question. */
  predicate IsCorrect(form: Form, i: nat)
  {
    i in form && i in AnswerKey && form[i] == AnswerKey[i]
  }

  /** The questions among 1..n that are answered correctly. */
  function CorrectUpTo(form: Form, n: nat): set<nat>
  {
    set i: nat | 1 <= i <= n && IsCorrect(form, i)
  }

  /** Number of correct answers among questions 1..n, counted in question order. */
  function CountCorrect(form: Form, n: nat): (c: nat)
    ensures c <= n
  {
    if n == 0 then 0
    else CountCorrect(form, n - 1) + (if IsCorrect(form, n) then 1 else 0)
  }

  /** The count is the size of the set of correctly answered questions. */
  lemma {:induction false} CountCorrectIsCardinality(form: Form, n: nat)
    ensures CountCorrect(form, n) == |CorrectUpTo(form, n)|
  {
    if n == 0 {
      assert CorrectUpTo(form, 0) == {};
    } else {
      CountCorrectIsCardinality(form, n - 1);
      if IsCorrect(form, n) {
        assert CorrectUpTo(form, n) == CorrectUpTo(form, n - 1) + {n};
      } else {
        assert CorrectUpTo(form, n) == CorrectUpTo(form, n - 1);
      }
    }
  }

  /** The scoring loop: one point per question whose checked value matches the key. */
  method ComputeScore(form: Form) returns (score: nat)
    ensures score == CountCorrect(form, TotalQuestions)
    ensures score == |CorrectUpTo(form, TotalQuestions)|
    ensures score <= TotalQuestions
  {
    score := 0;
    var i := 1;
    while i <= TotalQuestions
      invariant 1 <= i <= TotalQuestions + 1
      invariant score == CountCorrect(form, i - 1)
    {
      if i in form && i in AnswerKey && form[i] == AnswerKey[i] {
        score := score + 1;
      }
      i := i + 1;
    }
    CountCorrectIsCardinality(form, TotalQuestions);
  }

  /** Answering a question that had no checked input raises the score by one
      when the answer is the key's letter and leaves it unchanged otherwise:
      an unanswered question contributes nothing. */
  lemma {:induction false} AnsweringOneQuestion(form: Form, i: nat, value: string, n: nat)
    requires 1 <= i && i !in form
    ensures CountCorrect(form[i := value], n)
         == CountCorrect(form, n) + (if i <= n && i in AnswerKey && value == AnswerKey[i] then 1 else 0)
  {
    if n > 0 {
      AnsweringOneQuestion(form, i, value, n - 1);
      assert IsCorrect(form[i := value], n) == if n == i then i in AnswerKey && value == AnswerKey[i] else IsCorrect(form, n);
    }
  }

  /** Every question answered correctly is exactly the full score. */
  lemma {:induction false} FullScoreIffAllCorrect(form: Form, n: nat)
    ensures CountCorrect(form, n) == n <==> forall i :: 1 <= i <= n ==> IsCorrect(form, i)
  {
    if n > 0 {
      FullScoreIffAllCorrect(form, n - 1);
      if !IsCorrect(form, n) {
        assert CountCorrect(form, n - 1) <= n - 1;
      }
    }
  }

  /** No question answered correctly is exactly a score of zero. */
  lemma {:induction false} ZeroScoreIffNoneCorrect(form: Form, n: nat)
    ensures CountCorrect(form, n) == 0 <==> forall i :: 1 <= i <= n ==> !IsCorrect(form, i)
  {
    if n > 0 {
      ZeroScoreIffNoneCorrect(form, n - 1);
    }
  }

  /** Two forms that agree on which of the first n questions are correct get the same count. */
  lemma {:induction false} CountDependsOnlyOnCorrectness(f1: Form, f2: Form, n: nat)
    requires forall i :: 1 <= i <= n ==> (IsCorrect(f1, i) <==> IsCorrect(f2, i))
    ensures CountCorrect(f1, n) == CountCorrect(f2, n)
  {
    if n > 0 {
      CountDependsOnlyOnCorrectness(f1, f2, n - 1);
    }
  }

  /** `(score / totalQuestions) * 100`. For every score from 0 to 10 the
      double-precision result is exactly score * 10, so it is kept as an integer. */
  function Percentage(score: nat): (p: nat)
    requires score <= TotalQuestions
    ensures p as real == (score as real / TotalQuestions as real) * 100.0
    ensures p <= 100
  {
    score * 10
  }

  /** The four feedback tiers, from the highest to the lowest. */
  datatype Tier = Excellent | WellDone | NotBad | KeepLearning
  {
    /** The heading shown above the score. */
    function Message(): string
    {
      match this
      case Excellent => "Excellent ! 🎉"
      case WellDone => "Bien joué ! 👍"
      case NotBad => "Pas mal, continuez ! 💪"
      case KeepLearning => "Continuez à apprendre ! 📚"
    }

    /** The Bootstrap background class of the progress bar. */
    function BadgeClass(): string
    {
      match this
      case Excellent => "bg-success"
      case WellDone => "bg-primary"
      case NotBad => "bg-warning"
      case KeepLearning => "bg-danger"
    }

    /** Position on the scale, 0 for the lowest tier. */
    function Rank(): nat
    {
      match this
      case Excellent => 3
      case WellDone => 2
      case NotBad => 1
      case KeepLearning => 0
    }
  }

  /** The if/else chain on the percentage. */
  function TierOf(percentage: int): Tier
  {
    if percentage >= 80 then Excellent
    else if percentage >= 60 then WellDone
    else if percentage >= 40 then NotBad
    else KeepLearning
  }

  /** The bands are disjoint and cover every percentage. */
  lemma TierBands(percentage: int)
    ensures TierOf(percentage) == Excellent <==> 80 <= percentage
    ensures TierOf(percentage) == WellDone <==> 60 <= percentage < 80
    ensures TierOf(percentage) == NotBad <==> 40 <= percentage < 60
    ensures TierOf(percentage) == KeepLearning <==> percentage < 40
  {
  }

  /** A higher percentage never yields a lower tier. */
  lemma TierMonotone(p: int, q: int)
    requires p <= q
    ensures TierOf(p).Rank() <= TierOf(q).Rank()
  {
  }

  /** On scores, the percentage bands are the score bands 8+, 6-7, 4-5 and 0-3. */
  lemma ScoreBands(score: nat)
    requires score <= TotalQuestions
    ensures TierOf(Percentage(score)) == Excellent <==> score >= 8
    ensures TierOf(Percentage(score)) == WellDone <==> 6 <= score < 8
    ensures TierOf(Percentage(score)) == NotBad <==> 4 <= score < 6
    ensures TierOf(Percentage(score)) == KeepLearning <==> score < 4
  {
  }

  /** One item of the "Réponses correctes" list: the question it explains and
      whether it shows the check icon (true) or the cross icon (false). */
  datatype FeedbackEntry = FeedbackEntry(question: nat, correct: bool)

  /** The list items for questions 1..n, in question order. */
  function FeedbackUpTo(form: Form, n: nat): seq<FeedbackEntry>
  {
    seq(n, k requires 0 <= k => FeedbackEntry(k + 1, IsCorrect(form, k + 1)))
  }

  /** Number of list items that show the check icon. */
  function CheckCount(entries: seq<FeedbackEntry>): (c: nat)
    ensures c <= |entries|
  {
    if entries == [] then 0
    else CheckCount(entries[..|entries| - 1]) + (if entries[|entries| - 1].correct then 1 else 0)
  }

  /** The number of check icons among the first n items is the count of correct answers. */
  lemma {:induction false} ChecksEqualScore(form: Form, n: nat)
    ensures CheckCount(FeedbackUpTo(form, n)) == CountCorrect(form, n)
  {
    if n > 0 {
      ChecksEqualScore(form, n - 1);
      assert FeedbackUpTo(form, n)[..n - 1] == FeedbackUpTo(form, n - 1);
    }
  }

  /** The feedback loop: one item per question, in order, by the scoring test. */
  method BuildFeedback(form: Form) returns (entries: seq<FeedbackEntry>)
    ensures entries == FeedbackUpTo(form, TotalQuestions)
    ensures |entries| == TotalQuestions
    ensures forall k :: 0 <= k < |entries| ==>
              entries[k].question == k + 1 && (entries[k].correct <==> IsCorrect(form, k + 1))
    ensures CheckCount(entries) == CountCorrect(form, TotalQuestions)
  {
    entries := [];
    var i := 1;
    while i <= TotalQuestions
      invariant 1 <= i <= TotalQuestions + 1
      invariant entries == FeedbackUpTo(form, i - 1)
    {
      var isCorrect := i in form && i in AnswerKey && form[i] == AnswerKey[i];
      entries := entries + [FeedbackEntry(i, isCorrect)];
      i := i + 1;
    }
    ChecksEqualScore(form, TotalQuestions);
  }

  /** What one submit renders: the score out of ten, the percentage, the tier
      (message and badge class) and the per-question list. */
  datatype Report = Report(score: nat, percentage: nat, tier: Tier, feedback: seq<FeedbackEntry>)

  /** The results of grading a form, as a function of the form alone. */
  function Grade(form: Form): (r: Report)
    ensures r.score == |CorrectUpTo(form, TotalQuestions)| && r.score <= TotalQuestions
    ensures r.percentage == 10 * r.score
    ensures r.tier == TierOf(r.percentage)
    ensures r.feedback == FeedbackUpTo(form, TotalQuestions)
    ensures |r.feedback| == TotalQuestions && CheckCount(r.feedback) == r.score
  {
    var score := CountCorrect(form, TotalQuestions);
    CountCorrectIsCardinality(form, TotalQuestions);
    ChecksEqualScore(form, TotalQuestions);
    Report(score, Percentage(score), TierOf(Percentage(score)), FeedbackUpTo(form, TotalQuestions))
  }

  /** Forms that agree on which questions are correct are graded alike: wrong,
      out-of-range and missing answers are indistinguishable. */
  lemma GradeDependsOnlyOnCorrectness(f1: Form, f2: Form)
    requires forall i :: 1 <= i <= TotalQuestions ==> (IsCorrect(f1, i) <==> IsCorrect(f2, i))
    ensures Grade(f1) == Grade(f2)
  {
    CountDependsOnlyOnCorrectness(f1, f2, TotalQuestions);
    assert FeedbackUpTo(f1, TotalQuestions) == FeedbackUpTo(f2, TotalQuestions);
  }

  /** Answering exactly as the key says gives 10/10, 100% and the top tier. */
  lemma KeyAnswersScoreTen()
    ensures Grade(AnswerKey).score == 10 && Grade(AnswerKey).percentage == 100
    ensures Grade(AnswerKey).tier == Excellent && Grade(AnswerKey).tier.BadgeClass() == "bg-success"
    ensures forall k :: 0 <= k < |Grade(AnswerKey).feedback| ==> Grade(AnswerKey).feedback[k].correct
  {
  }

  /** Submitting with nothing checked gives 0/10, 0% and the lowest tier. */
  lemma EmptyFormScoresZero()
    ensures Grade(map[]).score == 0 && Grade(map[]).percentage == 0
    ensures Grade(map[]).tier == KeepLearning && Grade(map[]).tier.BadgeClass() == "bg-danger"
    ensures Grade(map[]).tier.Message() == "Continuez à apprendre ! 📚"
    ensures forall k :: 0 <= k < |Grade(map[]).feedback| ==> !Grade(map[]).feedback[k].correct
  {
  }

  /** Exactly six correct answers land on the lower edge of the "Bien joué" band. */
  lemma SixCorrectIsWellDone(form: Form)
    requires |CorrectUpTo(form, TotalQuestions)| == 6
    ensures Grade(form).percentage == 60
    ensures Grade(form).tier == WellDone && Grade(form).tier.Message() == "Bien joué ! 👍"
  {
  }

  /** The results container `#quizResults`: what it currently shows, if anything. */
  class ResultsPanel {
    var shown: Option<Report>

    constructor ()
      ensures shown == None
    {
      shown := None;
    }

    /** The submit handler: scores the form, picks the tier, builds the list and
        replaces whatever the container showed before. */
    method Submit(form: Form)
      modifies this
      ensures shown == Some(Grade(form))
    {
      var score := ComputeScore(form);
      var percentage := Percentage(score);
      var tier := TierOf(percentage);
      var feedback := BuildFeedback(form);
      shown := Some(Report(score, percentage, tier, feedback));
    }
  }
}
