/**
 * The evaluation engine: reference-material lookups, the score of a domain's
 * material, the rendering of its questions, the three-way verdict, and
 * `create_evaluation_table` with its aggregate metrics.
 */
module Evaluation {
  import opened Wrappers
  import opened Text
  import opened Ratio
  import opened Scorer
  import opened Metrics
  import opened McqBank

  /** The state fixed at start-up: the scoring backend and LEARNING_MATERIALS,
      the reference description of each domain. */
  datatype Context = Context(backend: Backend, materials: map<string, string>)

  const NoMaterials: string := "No materials available for this topic."

  /** `generate_learning_material`: the domain's reference text, or the
      "no materials" notice. */
  function GenerateLearningMaterial(materials: map<string, string>, domain: string): (r: string)
    ensures domain in materials ==> r == materials[domain]
    ensures domain !in materials ==> r == NoMaterials
  {
    if domain in materials then materials[domain] else NoMaterials
  }

  /** `evaluate_material`: the material scored against the domain's
      reference text, which is empty for an unknown domain. */
  function EvaluateMaterial(ctx: Context, material: string, domain: string): (score: real)
    ensures domain !in ctx.materials ==> score == Similarity(ctx.backend, material, "")
    ensures domain in ctx.materials ==> score == Similarity(ctx.backend, material, ctx.materials[domain])
    ensures ctx.backend.Lexical? ==> 0.0 <= score <= 1.0
  {
    Similarity(ctx.backend, material, if domain in ctx.materials then ctx.materials[domain] else "")
  }

  /** The score `create_evaluation_table` gives a domain: its generated
      material against its reference. Under the lexical fallback a domain
      with reference material scores 1, since its material is the reference
      itself, and a domain without scores 0, since the "no materials" notice
      has tokens and the empty reference none. */
  function DomainScore(ctx: Context, domain: string): (score: real)
    ensures ctx.backend.Lexical? ==> score == if domain in ctx.materials then 1.0 else 0.0
  {
    var material := GenerateLearningMaterial(ctx.materials, domain);
    LexicalSelf(material);
    assert !IsSpace(NoMaterials[0]);
    TokensEmpty(NoMaterials);
    TokensEmpty("");
    EvaluateMaterial(ctx, material, domain)
  }

  /** The qualitative description of a row. */
  datatype Verdict = Excellent | Good | Moderate {
    function Description(): string {
      match this
      case Excellent => "Excellent alignment with reference material."
      case Good => "Good alignment but could improve in specific areas."
      case Moderate => "Moderate alignment, requires improvements in content generation."
    }

    function Rank(): nat {
      match this
      case Moderate => 0
      case Good => 1
      case Excellent => 2
    }
  }

  /** The verdict of a raw score, by strict comparison with 0.9 and 0.7. */
  function Describe(score: real): (v: Verdict)
    ensures v == Excellent <==> score > 0.9
    ensures v == Good <==> 0.7 < score <= 0.9
    ensures v == Moderate <==> score <= 0.7
  {
    if score > 0.9 then Excellent
    else if score > 0.7 then Good
    else Moderate
  }

  /** A higher score never gets a worse verdict. */
  lemma DescribeMonotone(low: real, high: real)
    requires low <= high
    ensures Describe(low).Rank() <= Describe(high).Rank()
  {
  }

  /** The cut-offs themselves fall to the lower verdict, and a score of
      exactly 0.9 counts as a positive prediction at the default threshold
      while being described as only Good. */
  lemma VerdictBoundaries()
    ensures Describe(0.9) == Good && Describe(0.7) == Moderate
    ensures Label(0.9, 0.9) == 1
  {
  }

  /** `1 if score >= threshold else 0`. */
  function Label(score: real, threshold: real): (l: int)
    ensures IsBinary(l)
    ensures l == 1 <==> score >= threshold
  {
    if score >= threshold then 1 else 0
  }

  /** The lines of one question: "Q: …", one " - …" per option, "Answer: …", "". */
  function McqBlock(mcq: Mcq): (lines: seq<string>)
    ensures |lines| == |mcq.options| + 3
  {
    ["Q: " + mcq.question] + OptionLines(mcq.options) + ["Answer: " + mcq.answer, ""]
  }

  function OptionLines(options: seq<string>): (lines: seq<string>)
    ensures |lines| == |options|
  {
    seq(|options|, i requires 0 <= i < |options| => " - " + options[i])
  }

  /** What each line of a question says: the question, each option after
      " - ", the answer, and a blank line. */
  lemma McqBlockContent(mcq: Mcq)
    ensures McqBlock(mcq)[0] == "Q: " + mcq.question
    ensures forall i :: 0 <= i < |mcq.options| ==> McqBlock(mcq)[1 + i] == " - " + mcq.options[i]
    ensures McqBlock(mcq)[|mcq.options| + 1] == "Answer: " + mcq.answer
    ensures McqBlock(mcq)[|mcq.options| + 2] == ""
  {
  }

  /** The lines of all questions, question by question. */
  function McqLines(mcqs: seq<Mcq>): (lines: seq<string>)
    ensures lines == [] <==> mcqs == []
    ensures mcqs != [] ==> lines[|lines| - 1] == ""
  {
    if mcqs == [] then [] else McqLines(mcqs[..|mcqs| - 1]) + McqBlock(mcqs[|mcqs| - 1])
  }

  /** The MCQ text of a row: the lines of its questions joined by newlines. */
  method RenderMcqs(mcqs: seq<Mcq>) returns (text: string)
    ensures text == Join(McqLines(mcqs), "\n")
  {
    var lines: seq<string> := [];
    for k := 0 to |mcqs|
      invariant lines == McqLines(mcqs[..k])
    {
      var mcq := mcqs[k];
      lines := lines + ["Q: " + mcq.question];
      for j := 0 to |mcq.options|
        invariant lines == McqLines(mcqs[..k]) + ["Q: " + mcq.question] + OptionLines(mcq.options[..j])
      {
        assert OptionLines(mcq.options[..j + 1]) == OptionLines(mcq.options[..j]) + [" - " + mcq.options[j]];
        lines := lines + [" - " + mcq.options[j]];
      }
      assert mcq.options[..|mcq.options|] == mcq.options;
      lines := lines + ["Answer: " + mcq.answer, ""];
      assert mcqs[..k + 1][..k] == mcqs[..k];
    }
    assert mcqs[..|mcqs|] == mcqs;
    text := Join(lines, "\n");
  }

  /** The first line of the questions' text is the first question. */
  lemma {:induction false} McqLinesFirst(mcqs: seq<Mcq>)
    requires mcqs != []
    ensures McqLines(mcqs) != [] && McqLines(mcqs)[0] == "Q: " + mcqs[0].question
  {
    if |mcqs| > 1 {
      McqLinesFirst(mcqs[..|mcqs| - 1]);
    }
  }

  /** The text is empty exactly when there is no question. */
  lemma RenderedEmpty(mcqs: seq<Mcq>)
    ensures Join(McqLines(mcqs), "\n") == "" <==> mcqs == []
  {
    if mcqs != [] {
      McqLinesFirst(mcqs);
      JoinStartsWithFirst(McqLines(mcqs), "\n");
    }
  }

  /** No field of the question holds a newline. */
  predicate SingleLineFields(mcq: Mcq) {
    && '\n' !in mcq.question
    && '\n' !in mcq.answer
    && forall i :: 0 <= i < |mcq.options| ==> '\n' !in mcq.options[i]
  }

  lemma {:induction false} McqLinesSingle(mcqs: seq<Mcq>)
    requires forall k :: 0 <= k < |mcqs| ==> SingleLineFields(mcqs[k])
    ensures forall i :: 0 <= i < |McqLines(mcqs)| ==> '\n' !in McqLines(mcqs)[i]
  {
    if mcqs != [] {
      McqLinesSingle(mcqs[..|mcqs| - 1]);
      var last := mcqs[|mcqs| - 1];
      assert SingleLineFields(last);
      var block := McqBlock(last);
      forall i | 0 <= i < |block| ensures '\n' !in block[i] {
        if 0 < i <= |last.options| {
          assert block[i] == " - " + last.options[i - 1];
        }
      }
    }
  }

  /** Splitting the text on newlines gives back exactly the lines of the
      questions, provided there is a question and no field holds a newline. */
  lemma RenderedLines(mcqs: seq<Mcq>)
    requires mcqs != []
    requires forall k :: 0 <= k < |mcqs| ==> SingleLineFields(mcqs[k])
    ensures SplitOn(Join(McqLines(mcqs), "\n"), '\n') == McqLines(mcqs)
  {
    McqLinesFirst(mcqs);
    McqLinesSingle(mcqs);
    SplitOnJoin(McqLines(mcqs), '\n');
  }

  /** One row of the evaluation table. The percentage text of the score is
      not modelled; the row keeps the score itself. */
  datatype Row = Row(domain: string, material: string, score: real, mcqs: string, description: string)

  /** The row `create_evaluation_table` emits for one domain. */
  function RowFor(ctx: Context, bank: Bank, domain: string): (row: Row)
    ensures row.domain == domain && row.material == GenerateLearningMaterial(ctx.materials, domain)
    ensures row.score == DomainScore(ctx, domain)
    ensures row.mcqs == Join(McqLines(GenerateMcqs(domain, bank)), "\n")
    ensures row.mcqs == "" <==> GenerateMcqs(domain, bank) == []
    ensures row.description == Describe(row.score).Description()
    ensures ctx.backend.Lexical? ==>
              row.description == (if domain in ctx.materials then Excellent else Moderate).Description()
  {
    RenderedEmpty(GenerateMcqs(domain, bank));
    var material := GenerateLearningMaterial(ctx.materials, domain);
    var score := EvaluateMaterial(ctx, material, domain);
    Row(domain, material, score, Join(McqLines(GenerateMcqs(domain, bank)), "\n"), Describe(score).Description())
  }

  /** The true labels of the table: every reference is taken as correct. */
  function Ones(n: nat): (ys: seq<int>)
    ensures |ys| == n && forall i :: 0 <= i < n ==> ys[i] == 1
  {
    seq(n, _ => 1)
  }

  /** The predicted label of each domain at the given threshold. */
  function PredictedLabels(ctx: Context, domains: seq<string>, threshold: real): (ys: seq<int>)
    ensures |ys| == |domains|
    ensures forall i :: 0 <= i < |domains| ==> IsBinary(ys[i])
    ensures forall i :: 0 <= i < |domains| ==> (ys[i] == 1 <==> DomainScore(ctx, domains[i]) >= threshold)
  {
    seq(|domains|, i requires 0 <= i < |domains| => Label(DomainScore(ctx, domains[i]), threshold))
  }

  /** One pass of the loop of `create_evaluation_table`: the domain's row
      and its predicted label. */
  method EvaluateDomain(ctx: Context, bank: Bank, domain: string, threshold: real)
    returns (row: Row, predicted: int)
    ensures row == RowFor(ctx, bank, domain)
    ensures predicted == Label(DomainScore(ctx, domain), threshold)
  {
    var material := GenerateLearningMaterial(ctx.materials, domain);
    var score := EvaluateMaterial(ctx, material, domain);
    var mcqs := GenerateMcqs(domain, bank);
    predicted := if score >= threshold then 1 else 0;
    var text := RenderMcqs(mcqs);
    var description := Describe(score).Description();
    row := Row(domain, material, score, text, description);
  }

  /** The rows of the table: one per domain, in order. */
  function Rows(ctx: Context, bank: Bank, domains: seq<string>): (rows: seq<Row>)
    ensures |rows| == |domains|
    ensures forall i :: 0 <= i < |domains| ==> rows[i] == RowFor(ctx, bank, domains[i])
  {
    if domains == [] then []
    else Rows(ctx, bank, domains[..|domains| - 1]) + [RowFor(ctx, bank, domains[|domains| - 1])]
  }

  /** `create_evaluation_table`: one row per domain, in order, and the
      metrics of the predicted labels against all-1 true labels; with no
      domain the metrics raise ZeroDivisionError and no table is returned. */
  method CreateEvaluationTable(ctx: Context, domains: seq<string>, bank: Bank, threshold: real := 0.9)
    returns (r: Result<(seq<Row>, Metrics)>)
    ensures r.Err? <==> domains == []
    ensures r.Err? ==> r.error == ZeroDivisionError
    ensures r.Ok? ==> && r.value.0 == Rows(ctx, bank, domains)
                      && Ok(r.value.1) == ComputeMetrics(Ones(|domains|), PredictedLabels(ctx, domains, threshold))
  {
    var table: seq<Row> := [];
    var yTrue: seq<int> := [];
    var yPred: seq<int> := [];
    for k := 0 to |domains|
      invariant table == Rows(ctx, bank, domains[..k])
      invariant yTrue == Ones(k)
      invariant yPred == PredictedLabels(ctx, domains[..k], threshold)
    {
      var row, predicted := EvaluateDomain(ctx, bank, domains[k], threshold);
      TableStep(ctx, bank, domains, threshold, k);
      yTrue := yTrue + [1];
      yPred := yPred + [predicted];
      table := table + [row];
    }
    assert domains[..|domains|] == domains;
    var metrics := ComputeMetrics(yTrue, yPred);
    TableMetrics(ctx, domains, threshold);
    if metrics.Err? {
      return Err(metrics.error);
    }
    return Ok((table, metrics.value));
  }

  /** What one more domain adds to the rows and to the labels. */
  lemma TableStep(ctx: Context, bank: Bank, domains: seq<string>, threshold: real, k: nat)
    requires k < |domains|
    ensures Rows(ctx, bank, domains[..k + 1]) == Rows(ctx, bank, domains[..k]) + [RowFor(ctx, bank, domains[k])]
    ensures PredictedLabels(ctx, domains[..k + 1], threshold)
              == PredictedLabels(ctx, domains[..k], threshold) + [Label(DomainScore(ctx, domains[k]), threshold)]
    ensures Ones(k + 1) == Ones(k) + [1]
  {
    assert domains[..k + 1][..k] == domains[..k];
    LabelsStep(ctx, domains[..k + 1], threshold);
  }

  lemma LabelsStep(ctx: Context, domains: seq<string>, threshold: real)
    requires domains != []
    ensures PredictedLabels(ctx, domains, threshold)
              == PredictedLabels(ctx, domains[..|domains| - 1], threshold)
                 + [Label(DomainScore(ctx, domains[|domains| - 1]), threshold)]
  {
    var init := domains[..|domains| - 1];
    var ys, xs := PredictedLabels(ctx, domains, threshold), PredictedLabels(ctx, init, threshold);
    forall i | 0 <= i < |init| ensures ys[i] == xs[i] {
      assert init[i] == domains[i];
    }
  }

  /** The number of domains predicted positive. */
  function Positives(ctx: Context, domains: seq<string>, threshold: real): nat {
    Occurrences(PredictedLabels(ctx, domains, threshold), 1)
  }

  /** The table's metrics: an empty domain list raises ZeroDivisionError;
      otherwise accuracy and recall are the share of domains predicted
      positive and precision is 1 as soon as one is. */
  lemma TableMetrics(ctx: Context, domains: seq<string>, threshold: real)
    ensures domains == [] ==>
              ComputeMetrics(Ones(0), PredictedLabels(ctx, domains, threshold)) == Err(ZeroDivisionError)
    ensures domains != [] ==>
              ComputeMetrics(Ones(|domains|), PredictedLabels(ctx, domains, threshold))
                == DegenerateMetrics(Positives(ctx, domains, threshold), |domains|)
  {
    if domains != [] {
      AllTrueMetrics(Ones(|domains|), PredictedLabels(ctx, domains, threshold));
    }
  }

  /** Raising the threshold never adds a predicted positive. */
  lemma {:induction false} ThresholdMonotone(ctx: Context, domains: seq<string>, low: real, high: real)
    requires low <= high
    ensures Positives(ctx, domains, high) <= Positives(ctx, domains, low)
  {
    if domains != [] {
      var lows, highs := PredictedLabels(ctx, domains, low), PredictedLabels(ctx, domains, high);
      assert lows[1..] == PredictedLabels(ctx, domains[1..], low);
      assert highs[1..] == PredictedLabels(ctx, domains[1..], high);
      ThresholdMonotone(ctx, domains[1..], low, high);
    }
  }

  /** So the accuracy (and the recall) of the table never grows with the threshold. */
  lemma AccuracyMonotone(ctx: Context, domains: seq<string>, low: real, high: real)
    requires low <= high && domains != []
    ensures ComputeMetrics(Ones(|domains|), PredictedLabels(ctx, domains, high)).value.accuracy
              <= ComputeMetrics(Ones(|domains|), PredictedLabels(ctx, domains, low)).value.accuracy
  {
    TableMetrics(ctx, domains, low);
    TableMetrics(ctx, domains, high);
    ThresholdMonotone(ctx, domains, low, high);
    RatioMonotone(Positives(ctx, domains, high), Positives(ctx, domains, low), |domains|);
  }

  /** A domain with neither reference material nor questions gets the
      "no materials" notice and an empty question text; under the lexical
      fallback it scores 0 and is described as Moderate. */
  lemma UnknownDomainRow(ctx: Context, bank: Bank, domain: string)
    requires domain !in ctx.materials && domain !in bank
    ensures RowFor(ctx, bank, domain).domain == domain
    ensures RowFor(ctx, bank, domain).material == NoMaterials
    ensures RowFor(ctx, bank, domain).mcqs == ""
    ensures ctx.backend.Lexical? ==> RowFor(ctx, bank, domain).score == 0.0
    ensures ctx.backend.Lexical? ==> RowFor(ctx, bank, domain).description == Moderate.Description()
  {
    RenderedEmpty([]);
  }

  /** Two domains under the lexical fallback, one with reference material and
      one without: one positive out of two at threshold 0.9. */
  lemma TwoDomainExample()
    ensures var ctx := Context(Lexical, map["A" := "python lists"]);
            ComputeMetrics(Ones(2), PredictedLabels(ctx, ["A", "B"], 0.9))
              == Ok(Metrics(0.5, 1.0, 0.5, 2.0 / 3.0))
  {
    var ctx := Context(Lexical, map["A" := "python lists"]);
    ExampleLabels(ctx);
    TableMetrics(ctx, ["A", "B"], 0.9);
    assert Occurrences([1, 0], 1) == 1;
    HalfRate();
  }

  lemma HalfRate()
    ensures DegenerateMetrics(1, 2) == Ok(Metrics(0.5, 1.0, 0.5, 2.0 / 3.0))
  {
    var rate := 1 as real / 2 as real;
    assert rate == 0.5;
    assert 2.0 * rate / (1.0 + rate) == 1.0 / 1.5;
    assert 1.0 / 1.5 == 2.0 / 3.0;
  }

  lemma ExampleLabels(ctx: Context)
    requires ctx.backend.Lexical? && ctx.materials == map["A" := "python lists"]
    ensures PredictedLabels(ctx, ["A", "B"], 0.9) == [1, 0]
  {
    assert DomainScore(ctx, "A") == 1.0 && DomainScore(ctx, "B") == 0.0;
  }
}
