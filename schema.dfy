/** The records the question pipeline produces: a question with its answer,
    the options of a multiple-choice question and an explanation, and the
    per-type sections they are grouped in. */
module Schema {
  import opened Common
  import opened Text

  datatype Question = Question(question: string, answer: string, options: Option<seq<string>>, explanation: Option<string>)

  /** One section of a study guide: the question type (`type` in the
      record) and its questions. */
  datatype Section = Section(kind: string, questions: seq<Question>)

  /** The answer letters of a four-option question. */
  const Letters: seq<string> := ["A", "B", "C", "D"]

  /** An index into `Letters`. */
  type Letter = k: nat | k < 4

  /** Four options, the k-th one starting with the k-th letter and ") ". */
  predicate LabelledOptions(options: seq<string>)
  {
    |options| == 4 && forall k :: 0 <= k < 4 ==> StartsWith(options[k], Letters[k] + ") ")
  }

  /** The explanation opens with "Option X" for the answer letter X. */
  predicate NamesAnswer(q: Question)
  {
    q.explanation.Some? && StartsWith(q.explanation.value, "Option " + q.answer)
  }

  /** A multiple-choice record: four options, an answer among A-D and an
      explanation naming that answer. */
  predicate WellFormedMCQ(q: Question)
  {
    q.options.Some? && |q.options.value| == 4 && q.answer in Letters && NamesAnswer(q)
  }
}
