# Ontology-driven MCQ evaluation, modelled in Dafny

The system builds an ontology of Python programming concepts. It uses each
concept's description as the reference learning material for that domain, and
loads a bank of multiple-choice questions grouped by domain. For every domain
it produces one row of an evaluation table:

- the generated material;
- a similarity score of that material against the reference;
- the domain's questions rendered as text;
- a three-way qualitative verdict.

It also gives aggregate accuracy, precision, recall and F1. The true labels
are all 1 and the predicted labels come from the scores.

This project models that core:

- `ontology.dfy`: the ontology tree.
  - `OntologyNode` is a class whose `children` and `relationships` are
    extended in place.
  - `IterNodes` is the stack-based walk. It is proved against a ghost `Tree`
    witness of the object graph.
  - `OntologyAsDict` builds the name-to-description map.
- `scorer.dfy`: the similarity score.
  - The lexical fallback, the Jaccard index of lower-cased whitespace tokens,
    is modelled exactly.
  - The sentence-embedding backend is an opaque cosine function.
- `metrics.dfy`: the fallback `compute_metrics`, over the four counts of the
  confusion matrix.
- `mcq_bank.dfy`: `load_mcq_bank`. Each CSV row is a map from column to cell,
  and the rows are grouped by domain.
- `evaluation.dfy`:
  - the material lookup;
  - the score of a domain;
  - the rendering of its questions;
  - the verdict;
  - `create_evaluation_table` with its metrics.
- `text.dfy`: the string builtins used, over ASCII: `lower`, `split()` and
  `join`. It also defines `split(c)` as the inverse of the `"\n".join` of the
  rendered question lines, to show those lines can be recovered.
- `ratio.dfy`, `wrappers.dfy`: rational bounds, and the `Result` of an
  operation that raises.

Modelling choices:

- Python floats are modelled as exact rationals (`real`).
- Raised exceptions become `Err(ZeroDivisionError)` or `Err(KeyError(column))`.
- The module-level state fixed at start-up becomes an explicit `Context` value:
  - the chosen backend;
  - `LEARNING_MATERIALS`.

On an empty list of domains, `compute_metrics` divides by zero when it
computes the accuracy (ontology_quiz_generator.py:29). The model therefore
returns `Err(ZeroDivisionError)` (`Evaluation.TableMetrics`), and
`Evaluation.CreateEvaluationTable` returns no table.

## Model

| member | source | states |
|---|---|---|
| `Ontology.OntologyNode.constructor` | python_ontology.py:17-26 | every field takes its argument; difficulty defaults to "Beginner", the three lists to empty |
| `Ontology.OntologyNode.AddChild` | python_ontology.py:28-29 | the child is appended after the existing children; no other field changes |
| `Ontology.OntologyNode.AddRelationship` | python_ontology.py:31-32 | a relationship with the given kind and target is appended; no other field changes |
| `Ontology.IterNodes` | python_ontology.py:384-390 | the nodes yielded are exactly the stack walk `Walk([t])` of the node graph's shape; the root comes first; the loop terminates because every pop removes one node from the nodes still to visit |
| `Ontology.Walk` | python_ontology.py:386-390 | the nodes yielded from a stack of trees: pop the top, yield it, push its children; it yields as many nodes as the stack's trees hold, starting with the top |
| `Ontology.PopShrinks` | python_ontology.py:386-390 | replacing the popped node by its children leaves one node fewer to visit, so the walk terminates on any finite tree |
| `Ontology.WalkConcat` | python_ontology.py:386-390 | the stack is last in, first out: everything reachable from the upper part of the stack is yielded before anything from the lower part |
| `Ontology.WalkIsMirror` | python_ontology.py:384-390 | the walk equals pre-order with children taken right to left, an independent reference definition |
| `Ontology.LastChildFirst` | python_ontology.py:384-390 | the walk of a tree is its root, then the whole subtree of its last child, then the walk of the earlier children |
| `Ontology.MirrorOfPermutes` | python_ontology.py:384-390 | right-to-left pre-order holds the same nodes, with the same multiplicities, as left-to-right pre-order |
| `Ontology.WalkPermutes` | python_ontology.py:384-390 | the walk yields every node of the tree as often as the tree holds it, and no other; it yields as many nodes as the tree has |
| `Ontology.EveryNodeOnce` | python_ontology.py:384-390 | on a tree that shares no node, each of its nodes is yielded exactly once |
| `Ontology.DictOf` | python_ontology.py:395 | the comprehension's map: at most one key per node, and the last node's name maps to its description |
| `Ontology.DictKeys` | python_ontology.py:393-395 | the keys of the comprehension's map are exactly the names of the nodes |
| `Ontology.DictLastWins` | python_ontology.py:393-395 | each name maps to the description of the last node bearing it |
| `Ontology.SameNames` | python_ontology.py:393-395 | any reordering of the same nodes gives the same key set |
| `Ontology.OntologyAsDict` | python_ontology.py:393-395 | the map is built from the walk's nodes in order, and its keys are exactly the names of all nodes of the tree |
| `Text.LowerChar` | ontology_quiz_generator.py:87-88 | a capital becomes its own lower-case letter; every other character is left alone; whitespace stays whitespace |
| `Text.LowerIdempotent` | ontology_quiz_generator.py:87-88 | lower-casing twice is lower-casing once |
| `Text.LowerConcat` | ontology_quiz_generator.py:87-88 | lower-casing distributes over concatenation |
| `Text.Lower` | ontology_quiz_generator.py:87-88 | lower-casing keeps the length and maps each character independently |
| `Text.Split` | ontology_quiz_generator.py:87-88 | every token is non-empty and holds no whitespace; with `Text.SplitAtSpace`, `Text.SplitJoin` and `Text.SplitEmpty` the tokens are exactly the maximal non-whitespace runs, in order |
| `Text.SplitJoin` | ontology_quiz_generator.py:87-88 | splitting a space-joined list of tokens gives back the list: `split` inverts `join` |
| `Text.SplitEmpty` | ontology_quiz_generator.py:87-89 | a text has no token exactly when all its characters are whitespace |
| `Text.SplitAtSpace` | ontology_quiz_generator.py:87-88 | any whitespace character ends a token: the tokens of a text cut at one are the tokens of its two sides, so runs of whitespace and leading or trailing whitespace give no empty token |
| `Text.Join` | ontology_quiz_generator.py:139 | joining no part gives "", joining one part gives that part |
| `Text.JoinStartsWithFirst` | ontology_quiz_generator.py:139 | the joined text begins with its first part |
| `Text.SplitOn` | ontology_quiz_generator.py:139 | the inverse of the newline join: splitting on one character never yields an empty list and keeps empty pieces |
| `Text.SplitOnJoin` | ontology_quiz_generator.py:139 | splitting on `c` inverts joining with `c` when no part contains `c` |
| `Scorer.Tokens` | ontology_quiz_generator.py:87-88 | the token set holds only non-empty, whitespace-free words; `Scorer.TokensIgnoreCase` and `Scorer.TokensAtSpace` make it the set of lower-cased whitespace-separated words |
| `Scorer.Jaccard` | ontology_quiz_generator.py:89-91 | the score lies in [0, 1], is 1 exactly when the token sets are equal, and 0 exactly when they are disjoint and not both empty |
| `Scorer.OverlapCard` | ontology_quiz_generator.py:91 | the intersection is no larger than the union, and as large only when the sets are equal |
| `Scorer.SubsetCard` | ontology_quiz_generator.py:91 | a proper subset is strictly smaller |
| `Scorer.Similarity` | ontology_quiz_generator.py:83-96 | two empty texts score 1 with either backend; the lexical score lies in [0, 1] |
| `Scorer.TokensEmpty` | ontology_quiz_generator.py:87-89 | a text has no token exactly when it is all whitespace |
| `Scorer.LexicalExtremes` | ontology_quiz_generator.py:87-91 | the lexical score is 1 exactly when the token sets agree, and 0 exactly when they are disjoint and one is non-empty |
| `Scorer.LexicalSelf` | ontology_quiz_generator.py:87-91 | every text scores 1 against itself |
| `Scorer.SimilaritySymmetric` | ontology_quiz_generator.py:83-96 | the score does not depend on argument order (for the embedding, if its cosine is symmetric) |
| `Scorer.TokensIgnoreCase` | ontology_quiz_generator.py:87-88 | a text and its lower-cased form have the same tokens |
| `Scorer.LexicalIgnoresCase` | ontology_quiz_generator.py:87-91 | two texts equal up to case score 1 under the lexical fallback |
| `Scorer.TokensAtSpace` | ontology_quiz_generator.py:87-88 | the tokens of a text cut at a whitespace character are the tokens of its two sides |
| `Scorer.LexicalExample` | ontology_quiz_generator.py:87-91 | "the cat sat" against "the dog sat" scores 0.5 |
| `Scorer.ThreeTokens` | ontology_quiz_generator.py:87-88 | three lower-case words joined by spaces have exactly those three tokens |
| `Scorer.LowerOfLower` | ontology_quiz_generator.py:87-88 | lower-casing leaves a text without capitals unchanged |
| `Ratio.RatioBounds` | ontology_quiz_generator.py:29-31 | a count over a larger positive count lies in [0, 1], is 1 iff the counts agree and 0 iff the numerator is 0 |
| `Ratio.RatioMonotone` | ontology_quiz_generator.py:29 | over one denominator, ratios are ordered as their numerators |
| `Metrics.Count` | ontology_quiz_generator.py:25-28 | a confusion count never exceeds the length of either label list |
| `Metrics.ComputeMetrics` | ontology_quiz_generator.py:24-33 | raises ZeroDivisionError exactly when no zipped pair has two binary labels; otherwise all four metrics lie in [0, 1]; accuracy is 1 iff no pair is misclassified and 0 iff none is classified correctly; precision and recall are 1 iff there is a true positive and no false positive (resp. false negative), and 0 iff there is no true positive; F1 is 0 or lies between precision and recall |
| `Metrics.FromCounts` | ontology_quiz_generator.py:29-33 | the same guarantees stated on the four counts: accuracy 1 iff fp + fn = 0 and 0 iff tp + tn = 0; precision 1 iff tp > 0 and fp = 0, 0 iff tp = 0; recall 1 iff tp > 0 and fn = 0, 0 iff tp = 0 |
| `Metrics.HarmonicMeanBounds` | ontology_quiz_generator.py:32 | F1 lies between precision and recall |
| `Metrics.CountedPairs` | ontology_quiz_generator.py:25-29 | the four counts are all zero exactly when no zipped pair has both labels in {0, 1} |
| `Metrics.AllTrueCounts` | ontology_quiz_generator.py:25-28 | with all true labels 1 there is no false positive or true negative; true positives are the predicted 1s, false negatives the predicted 0s |
| `Metrics.BinaryOccurrences` | ontology_quiz_generator.py:25-28 | a binary list holds as many 0s and 1s as its length |
| `Metrics.AllTrueMetrics` | ontology_quiz_generator.py:24-33 | with all true labels 1, accuracy and recall are the rate of predicted 1s, precision is 1 once a 1 is predicted, F1 is 2r/(1+r) |
| `Metrics.OnlyTruePositives` | ontology_quiz_generator.py:29-33 | a confusion matrix without negative true labels gives those degenerate metrics |
| `McqBank.FirstMissing` | ontology_quiz_generator.py:72-76 | names the first required column the row lacks, or none when all are present |
| `McqBank.ParseRow` | ontology_quiz_generator.py:72-78 | succeeds exactly when all seven required columns are present, else raises KeyError for the first absent one in read order (Domain, Question, A, B, C, D, Answer); copies question, options A-D and answer; Difficulty defaults to "Beginner" |
| `McqBank.Entries` | ontology_quiz_generator.py:71-78 | one parsed entry per row, in row order |
| `McqBank.EntriesSnoc` | ontology_quiz_generator.py:71-79 | one more row appends its entry and its record to its domain's list |
| `McqBank.GenerateMcqs` | ontology_quiz_generator.py:104-106 | the domain's list, or no question for an unknown domain |
| `McqBank.LoadMcqBank` | ontology_quiz_generator.py:66-80 | succeeds exactly when every row parses, giving the grouped bank; otherwise fails with the error of the first row that does not parse |
| `McqBank.Grouped` | ontology_quiz_generator.py:79 | `setdefault(domain, []).append(mcq)` over the entries in order: no domain's list is ever empty |
| `McqBank.GroupedIsFilter` | ontology_quiz_generator.py:79 | each domain's list is exactly its rows' records in row order, and a domain is a key iff some row names it |
| `McqBank.TotalWithout` | ontology_quiz_generator.py:79 | the total number of records may be summed starting from any domain |
| `McqBank.TotalAppend` | ontology_quiz_generator.py:79 | one `setdefault(...).append` adds exactly one record |
| `McqBank.GroupedTotal` | ontology_quiz_generator.py:71-79 | the bank holds exactly one record per row: none lost, none duplicated |
| `McqBank.BankRecords` | ontology_quiz_generator.py:71-79 | every record of a domain's list comes from a row of that domain |
| `McqBank.ForDomainMember` | ontology_quiz_generator.py:79 | every record of the filtered list comes from an entry of that domain |
| `Evaluation.GenerateLearningMaterial` | ontology_quiz_generator.py:99-101 | the domain's reference text, or the "no materials" notice for an unknown domain |
| `Evaluation.EvaluateMaterial` | ontology_quiz_generator.py:109-112 | the material scored against the domain's reference, or against "" for an unknown domain; in [0, 1] under the lexical backend |
| `Evaluation.DomainScore` | ontology_quiz_generator.py:125-126 | under the lexical fallback a domain with reference material scores 1 (its material is its reference) and one without scores 0 |
| `Evaluation.Describe` | ontology_quiz_generator.py:141-146 | Excellent iff score > 0.9, Good iff 0.7 < score <= 0.9, Moderate iff score <= 0.7 |
| `Evaluation.DescribeMonotone` | ontology_quiz_generator.py:141-146 | a higher score never gets a worse verdict |
| `Evaluation.VerdictBoundaries` | ontology_quiz_generator.py:130-146 | the cut-offs fall to the lower verdict; a score of exactly 0.9 is a positive prediction at the default threshold yet only Good |
| `Evaluation.Label` | ontology_quiz_generator.py:130 | the label is binary and 1 iff score >= threshold |
| `Evaluation.McqBlock` | ontology_quiz_generator.py:133-138 | one question gives its options plus three lines |
| `Evaluation.McqBlockContent` | ontology_quiz_generator.py:134-138 | a question's lines read "Q: " and the question, " - " and each option in order, "Answer: " and the answer, then a blank line |
| `Evaluation.OptionLines` | ontology_quiz_generator.py:135-136 | one line per option |
| `Evaluation.RenderMcqs` | ontology_quiz_generator.py:132-139 | the text is the newline join of each question's block in order |
| `Evaluation.McqLinesFirst` | ontology_quiz_generator.py:132-139 | the first line is the first question's "Q: " line |
| `Evaluation.RenderedEmpty` | ontology_quiz_generator.py:132-139 | the text is empty exactly when there is no question |
| `Evaluation.McqLinesSingle` | ontology_quiz_generator.py:132-139 | fields without newlines give lines without newlines |
| `Evaluation.McqLines` | ontology_quiz_generator.py:132-138 | the lines of the questions in order: none exactly when there is no question, and the last line is the blank line after the last question |
| `Evaluation.RenderedLines` | ontology_quiz_generator.py:132-139 | splitting the text on newlines gives back the lines |
| `Evaluation.Ones` | ontology_quiz_generator.py:129 | every true label is 1 |
| `Evaluation.PredictedLabels` | ontology_quiz_generator.py:124-130 | one binary label per domain, 1 iff its score reaches the threshold |
| `Evaluation.EvaluateDomain` | ontology_quiz_generator.py:124-156 | one loop pass yields the domain's row (material, score, question text, verdict) and its label |
| `Evaluation.RowFor` | ontology_quiz_generator.py:125-156 | the domain's row: its material, its score, a question text that is its questions' lines joined with newlines and empty exactly when the domain has no question, and the verdict of its score; under the lexical fallback the verdict is Excellent exactly for domains with reference material, otherwise Moderate |
| `Evaluation.Rows` | ontology_quiz_generator.py:121-156 | one row per domain, in order |
| `Evaluation.CreateEvaluationTable` | ontology_quiz_generator.py:115-174 | threshold defaults to 0.9; raises ZeroDivisionError exactly when there is no domain; otherwise the table is the domains' rows in order and the metrics are `compute_metrics` of all-1 true labels against the predicted labels |
| `Evaluation.TableStep` | ontology_quiz_generator.py:124-156 | one more domain appends its row, its label and a true 1 |
| `Evaluation.LabelsStep` | ontology_quiz_generator.py:130 | one more domain appends its label to the predicted labels |
| `Evaluation.TableMetrics` | ontology_quiz_generator.py:165-172 | no domain raises ZeroDivisionError; otherwise accuracy and recall are the share of positive domains and precision is 1 once one is positive |
| `Evaluation.ThresholdMonotone` | ontology_quiz_generator.py:130 | raising the threshold never adds a positive |
| `Evaluation.AccuracyMonotone` | ontology_quiz_generator.py:124-172 | the table's accuracy never grows with the threshold |
| `Evaluation.UnknownDomainRow` | ontology_quiz_generator.py:99-156 | a domain with no material and no question gets the notice, an empty question text and, lexically, score 0 and Moderate |
| `Evaluation.TwoDomainExample` | ontology_quiz_generator.py:115-174 | one domain with material and one without, at threshold 0.9: accuracy 0.5, precision 1, recall 0.5, F1 2/3 |
| `Evaluation.HalfRate` | ontology_quiz_generator.py:29-32 | one positive of two gives accuracy 0.5, precision 1, recall 0.5, F1 2/3 |
| `Evaluation.ExampleLabels` | ontology_quiz_generator.py:124-130 | in that example the labels are [1, 0] |

## Left out

- The `sklearn` branch of the metrics (ontology_quiz_generator.py:18-20 and 158-164) is not modelled. It is a library call. Only the fallback `compute_metrics` is.
- The sentence-embedding model, its loading and the notice it prints on failure are not modelled. The model is an opaque `cosine` function carried by `Backend.Embedding`.
- Scorer.Similarity: for the embedding backend it states only the case of two empty texts. The cosine's value is not constrained.
- The percentage text of the score, `f"{score * 100:.2f}%"`, is not modelled. A `Row` keeps the score itself, and the row's dictionary keys become `Row` fields.
- File I/O is not modelled. That covers opening the CSV file and `csv.DictReader`'s parsing of its text; a row arrives as a map from column to cell. So are short rows, whose missing cells the reader fills with `None`, and extra cells, which it collects under a `None` key.
- `main`, the Flask application and the printing of the table are not modelled.
- `build_python_ontology` and the four extra entries added to `LEARNING_MATERIALS` are not modelled. They are fixed data; the materials map is a parameter of `Context`.
- Dictionary insertion order is not modelled. Dafny maps are unordered, so the order of `mcq_bank.keys()` used by `main` is lost.
- Floating point is not modelled. Scores and metrics are exact rationals.
- Non-ASCII lower-casing and whitespace are not modelled. `Text.Lower` and `Text.Split` follow Python on ASCII only.
- The laziness of the `iter_nodes` generator is not modelled. `IterNodes` collects its yields in order, so a tree changed during the iteration is not modelled.
- A node graph with a cycle has no `Tree` witness, so `IterNodes` and `OntologyAsDict` require a finite shape; the Python loop never ends on such a graph.
- Aliasing between the list a caller passes to the `OntologyNode` constructor and the node's own list field is not modelled. Those lists are Dafny sequences, which are values.
- The `Relationship` field `type` is named `kind`.
