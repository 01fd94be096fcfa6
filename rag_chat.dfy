/**
 * rag_chat.py: answer one question from the "news_chunks" collection by
 * embedding the question, retrieving the nearest documents, joining them
 * into a context and sending a fixed prompt to the language model; plus the
 * read-answer loop that stops on "exit" or "quit". The embedder, the
 * collection query and the model are the parameters `embedQuery`,
 * `retrieve` and `generate`.
 */
module RagChat {
  import opened Text

  /** `n_results` when the caller gives none. */
  const DefaultResults: nat := 10

  /** The separator between retrieved documents in the context. */
  const Separator := "\n\n"

  /** The fixed parts of the prompt template, in order. */
  const Instructions := "Answer the following question using the provided context.\nIf the context is not enough, say so instead of guessing.\n\n"
  const QuestionLabel := "Question: "
  const ContextLabel := "\n\nContext:\n"
  const AnswerLabel := "\n\nAnswer:"

  /** `"\n\n".join(documents)`. */
  function Context(documents: seq<string>): string {
    Join(documents, Separator)
  }

  /** No documents give an empty context. */
  lemma ContextEmpty()
    ensures Context([]) == ""
  {
  }

  /** The context's length is the documents' total length plus two per separator. */
  lemma ContextLength(documents: seq<string>)
    requires |documents| > 0
    ensures |Context(documents)| == TotalLength(documents) + 2 * (|documents| - 1)
  {
    JoinLength(documents, Separator);
  }

  /**
   * The documents appear in the context in the order retrieved: document
   * `i` starts at `PartStart(documents, "\n\n", i)`, and the separator
   * follows every document but the last.
   */
  lemma ContextOrder(documents: seq<string>, i: nat)
    requires i < |documents|
    ensures PartStart(documents, Separator, i) + |documents[i]| <= |Context(documents)|
    ensures Context(documents)[PartStart(documents, Separator, i)..PartStart(documents, Separator, i) + |documents[i]|] == documents[i]
    ensures i + 1 < |documents| ==> PartStart(documents, Separator, i) + |documents[i]| + 2 <= |Context(documents)|
    ensures i + 1 < |documents| ==>
      Context(documents)[PartStart(documents, Separator, i) + |documents[i]|..PartStart(documents, Separator, i) + |documents[i]| + 2] == Separator
  {
    JoinOrder(documents, Separator, i);
  }

  /** Each document starts two characters (the separator) after the previous one ends. */
  lemma DocumentStartNext(documents: seq<string>, i: nat)
    requires i < |documents|
    ensures PartStart(documents, Separator, i + 1) == PartStart(documents, Separator, i) + |documents[i]| + 2
  {
    PartStartNext(documents, Separator, i);
  }

  /** The prompt sent to the model. */
  function Prompt(query: string, context: string): string {
    Instructions + QuestionLabel + query + ContextLabel + context + AnswerLabel
  }

  /** Where the question starts in the prompt. */
  function QueryStart(): nat {
    |Instructions| + |QuestionLabel|
  }

  /** Where the context starts in the prompt, after the question and the "Context:" line. */
  function ContextStart(query: string): nat {
    QueryStart() + |query| + |ContextLabel|
  }

  /**
   * The template: the instructions and "Question: " open the prompt, the
   * question follows verbatim, then "Context:" and the context verbatim,
   * and "Answer:" closes it; the question comes before the context.
   */
  lemma PromptLayout(query: string, context: string)
    ensures |Prompt(query, context)| == ContextStart(query) + |context| + |AnswerLabel|
    ensures Prompt(query, context)[..|Instructions|] == Instructions
    ensures Prompt(query, context)[|Instructions|..QueryStart()] == QuestionLabel
    ensures Prompt(query, context)[QueryStart()..QueryStart() + |query|] == query
    ensures Prompt(query, context)[QueryStart() + |query|..ContextStart(query)] == ContextLabel
    ensures Prompt(query, context)[ContextStart(query)..ContextStart(query) + |context|] == context
    ensures Prompt(query, context)[ContextStart(query) + |context|..] == AnswerLabel
    ensures QueryStart() + |query| < ContextStart(query)
  {
    Layout(Instructions, QuestionLabel, query, ContextLabel, context, AnswerLabel);
  }

  /** Where each of six concatenated strings sits in the whole. */
  lemma Layout(a: string, b: string, c: string, d: string, e: string, f: string)
    ensures var w := a + b + c + d + e + f;
      && |w| == |a| + |b| + |c| + |d| + |e| + |f|
      && w[..|a|] == a
      && w[|a|..|a| + |b|] == b
      && w[|a| + |b|..|a| + |b| + |c|] == c
      && w[|a| + |b| + |c|..|a| + |b| + |c| + |d|] == d
      && w[|a| + |b| + |c| + |d|..|a| + |b| + |c| + |d| + |e|] == e
      && w[|a| + |b| + |c| + |d| + |e|..] == f
  {
    var w := a + b + c + d + e + f;
    var ab := a + b;
    var abc := ab + c;
    var abcd := abc + d;
    var abcde := abcd + e;
    assert w == abcde + f;
    assert w[..|abcde|] == abcde;
    assert abcde[..|abcd|] == abcd;
    assert abcd[..|abc|] == abc;
    assert abc[..|ab|] == ab;
  }

  /**
   * `rag_query`: embed the question, take the documents of the one query
   * (`results["documents"][0]`), join them into the context, and return
   * only the model's text for the prompt. `retrieve` gives one document list
   * per query embedding, so the list for the single query is present.
   */
  method RagQuery(query: string, embedQuery: string -> seq<real>,
                  retrieve: (seq<seq<real>>, nat) -> seq<seq<string>>,
                  generate: string -> string,
                  nResults: nat := DefaultResults)
    returns (answer: string)
    requires |retrieve([embedQuery(query)], nResults)| > 0
    ensures answer == generate(Prompt(query, Context(retrieve([embedQuery(query)], nResults)[0])))
  {
    var queryEmbedding := embedQuery(query);
    var results := retrieve([queryEmbedding], nResults);
    var context := Context(results[0]);
    var prompt := Prompt(query, context);
    answer := generate(prompt);
  }

  /** `query.lower() in ["exit", "quit"]`. */
  predicate IsExitCommand(s: string) {
    Lower(s) == "exit" || Lower(s) == "quit"
  }

  /** `s` spells the word whose lower- and upper-case letters are `lower` and `upper`, each letter in either case. */
  predicate SpelledInAnyCase(s: string, lower: string, upper: string) {
    |s| == |lower| == |upper| && forall i :: 0 <= i < |s| ==> s[i] == lower[i] || s[i] == upper[i]
  }

  /**
   * The exit test accepts exactly the spellings of "exit" and "quit" in any
   * mix of cases, and nothing else (no surrounding spaces are stripped).
   */
  lemma ExitCommandIff(s: string)
    ensures IsExitCommand(s) <==> SpelledInAnyCase(s, "exit", "EXIT") || SpelledInAnyCase(s, "quit", "QUIT")
  {
    if Lower(s) == "exit" {
      forall i | 0 <= i < |s|
        ensures s[i] == "exit"[i] || s[i] == "EXIT"[i]
      {
        assert LowerChar(s[i]) == "exit"[i];
      }
    }
    if Lower(s) == "quit" {
      forall i | 0 <= i < |s|
        ensures s[i] == "quit"[i] || s[i] == "QUIT"[i]
      {
        assert LowerChar(s[i]) == "quit"[i];
      }
    }
    if SpelledInAnyCase(s, "exit", "EXIT") {
      assert Lower(s) == "exit";
    }
    if SpelledInAnyCase(s, "quit", "QUIT") {
      assert Lower(s) == "quit";
    }
  }

  /** The interactive loop over the lines read: answer each until an exit command. */
  method Repl(inputs: seq<string>, answerOf: string -> string) returns (replies: seq<string>, quit: bool)
    ensures |replies| <= |inputs|
    ensures forall j :: 0 <= j < |replies| ==> !IsExitCommand(inputs[j]) && replies[j] == answerOf(inputs[j])
    ensures quit ==> |replies| < |inputs| && IsExitCommand(inputs[|replies|])
    ensures !quit ==> |replies| == |inputs|
  {
    replies := [];
    quit := false;
    var i := 0;
    while i < |inputs|
      invariant i <= |inputs| && |replies| == i
      invariant forall j :: 0 <= j < i ==> !IsExitCommand(inputs[j]) && replies[j] == answerOf(inputs[j])
    {
      if IsExitCommand(inputs[i]) {
        quit := true;
        return;
      }
      replies := replies + [answerOf(inputs[i])];
      i := i + 1;
    }
  }
}
