/** The validator itself: `WikiProvenance` fetches and indexes the topic's
    page when it is built, and validates a response either sentence by
    sentence or as a whole, asking the judge whether the closest page chunks
    support each claim. */
module Provenance {
  import opened Base
  import opened Text
  import opened Fetching
  import opened Chunking
  import opened Indexing
  import opened Judging

  /** The services the validator calls and does not implement: Wikipedia
      search and page fetch, the similarity query of the vector store over the
      stored documents, the language model, the sentence tokenizer, and the
      process's string hash. */
  datatype Services = Services(
    search: (string, nat) -> seq<string>,
    fetch: string -> FetchResult,
    query: (seq<string>, string, nat) -> seq<seq<string>>,
    complete: (string, string) -> Option<string>,
    tokenize: string -> seq<string>,
    hash: string -> int)

  /** The outcome of a validation; the caller's metadata is carried along. */
  datatype ValidationResult<M> =
    | PassResult(metadata: M)
    | FailResult(metadata: M, errorMessage: string, fixValue: string)

  // ---------------------------------------------------------------------------
  // Evaluating one claim (`get_closest_chunks` + `get_evaluation`)
  // ---------------------------------------------------------------------------

  /** `get_evaluation` against the stored documents: query the closest chunks,
      then ask the judge about the claim in their light. */
  function Evaluation(services: Services, model: string, documents: seq<string>, claim: string): Result<Verdict>
  {
    var chunks :- ClosestChunks(services.query(documents, claim, QueryLimit));
    Judge(services.complete, model, claim, chunks)
  }

  /** A verdict is the model's normalised answer to the prompt built from the
      claim and the first result list of the query; every failure is one of
      the three the evaluation can raise. */
  lemma EvaluationMeaning(services: Services, model: string, documents: seq<string>, claim: string)
    ensures var r := Evaluation(services, model, documents, claim);
      var results := services.query(documents, claim, QueryLimit);
      (r.Ok? ==>
        (results != [] &&
         services.complete(model, Prompt(claim, results[0])).Some? &&
         Normalise(services.complete(model, Prompt(claim, results[0])).value) == VerdictText(r.value))) &&
      (r.Err? ==> EvaluationError(r.error))
  {
  }

  /** The errors evaluating a claim can raise. */
  predicate EvaluationError(e: Error)
  {
    e.NoMatchingParagraphs? || e.JudgeUnavailable? || e.InvalidEvaluation?
  }

  /** Every failure of the evaluator is an evaluation error. */
  ghost predicate RaisesEvaluationErrorsOnly(eval: string -> Result<Verdict>)
  {
    forall claim :: eval(claim).Err? ==> EvaluationError(eval(claim).error)
  }

  /** The evaluation of every claim against fixed documents. */
  function Evaluator(services: Services, model: string, documents: seq<string>): (eval: string -> Result<Verdict>)
    ensures RaisesEvaluationErrorsOnly(eval)
  {
    var eval := claim => Evaluation(services, model, documents, claim);
    assert forall claim :: eval(claim) == Evaluation(services, model, documents, claim);
    forall claim
      ensures eval(claim).Err? ==> EvaluationError(eval(claim).error)
    {
      EvaluationMeaning(services, model, documents, claim);
    }
    eval
  }

  // ---------------------------------------------------------------------------
  // Sentence mode (`validate_each_sentence`)
  // ---------------------------------------------------------------------------

  /** The sentence was judged supported. */
  function SupportedBy(eval: string -> Result<Verdict>): string -> bool
  {
    sentence => eval(sentence) == Ok(Yes)
  }

  /** The sentence was judged anything but supported. */
  function UnsupportedBy(eval: string -> Result<Verdict>): string -> bool
  {
    sentence => eval(sentence) != Ok(Yes)
  }

  /** The error of the first sentence whose evaluation fails, if any: it
      propagates out of the loop and ends the validation. */
  function FirstFailure(sentences: seq<string>, eval: string -> Result<Verdict>): (r: Option<Error>)
    ensures r.None? <==> forall i :: 0 <= i < |sentences| ==> eval(sentences[i]).Ok?
    decreases |sentences|
  {
    if sentences == [] then None
    else if eval(sentences[0]).Err? then Some(eval(sentences[0]).error)
    else
      var r := FirstFailure(sentences[1..], eval);
      assert forall i :: 1 <= i < |sentences| ==> sentences[i] == sentences[1..][i - 1];
      r
  }

  /** Sentences that evaluate are passed over; the first failing one decides. */
  lemma {:induction false} FirstFailureAt(sentences: seq<string>, eval: string -> Result<Verdict>, i: nat)
    requires i < |sentences|
    requires forall j :: 0 <= j < i ==> eval(sentences[j]).Ok?
    requires eval(sentences[i]).Err?
    ensures FirstFailure(sentences, eval) == Some(eval(sentences[i]).error)
    decreases i
  {
    if i > 0 {
      FirstFailureAt(sentences[1..], eval, i - 1);
    }
  }

  /** The first line of the sentence-mode error message. */
  const SentenceFailHeader: string :=
    "None of the following sentences in the response are supported " + "by the provided context:"

  /** The sentence-mode error message: the header, then one `- ` bullet per
      unsupported sentence. */
  function SentenceFailMessage(unsupported: seq<string>): string
  {
    SentenceFailHeader + "\n" + "- " + Join("\n- ", unsupported)
  }

  /** The outcome of `validate_each_sentence` on the tokenized sentences. */
  function SentenceValidation<M>(sentences: seq<string>, eval: string -> Result<Verdict>, metadata: M)
    : Result<ValidationResult<M>>
  {
    match FirstFailure(sentences, eval)
    case Some(e) => Err(e)
    case None =>
      var unsupported := Filter(UnsupportedBy(eval), sentences);
      if unsupported != [] then
        Ok(FailResult(metadata, SentenceFailMessage(unsupported), Join("\n", Filter(SupportedBy(eval), sentences))))
      else
        Ok(PassResult(metadata))
  }

  /** Once every sentence is evaluated, the result is a failure exactly when
      some sentence is not supported. */
  lemma SentenceFailIff<M>(sentences: seq<string>, eval: string -> Result<Verdict>, metadata: M)
    requires forall i :: 0 <= i < |sentences| ==> eval(sentences[i]).Ok?
    ensures SentenceValidation(sentences, eval, metadata).Ok?
    ensures SentenceValidation(sentences, eval, metadata).value.FailResult? <==>
      exists i :: 0 <= i < |sentences| && eval(sentences[i]) == Ok(No)
  {
    var unsupported := Filter(UnsupportedBy(eval), sentences);
    FilterSound(UnsupportedBy(eval), sentences);
    FilterComplete(UnsupportedBy(eval), sentences);
    FilterOrdered(UnsupportedBy(eval), sentences);
    if exists i :: 0 <= i < |sentences| && eval(sentences[i]) == Ok(No) {
      var i :| 0 <= i < |sentences| && eval(sentences[i]) == Ok(No);
      assert UnsupportedBy(eval)(sentences[i]);
    }
    if unsupported != [] {
      SubsequenceHolds(unsupported, sentences, 0);
      var i :| 0 <= i < |sentences| && sentences[i] == unsupported[0];
      assert UnsupportedBy(eval)(unsupported[0]);
      var v := eval(sentences[i]);
      assert v.Ok? && v.value != Yes;
    }
  }

  /** One more evaluated sentence joins exactly one of the two lists, at its end. */
  lemma SortStep(sentences: seq<string>, eval: string -> Result<Verdict>, i: nat)
    requires i < |sentences|
    ensures var s := sentences[i];
      Filter(SupportedBy(eval), sentences[..i + 1]) ==
        Filter(SupportedBy(eval), sentences[..i]) + (if eval(s) == Ok(Yes) then [s] else []) &&
      Filter(UnsupportedBy(eval), sentences[..i + 1]) ==
        Filter(UnsupportedBy(eval), sentences[..i]) + (if eval(s) == Ok(Yes) then [] else [s])
  {
    assert sentences[..i + 1][..i] == sentences[..i];
  }

  /** The loop of `validate_each_sentence`: every sentence is evaluated in
      turn and appended to the supported or the unsupported ones; the first
      failing evaluation ends the validation. */
  method ValidateSentences<M>(sentences: seq<string>, eval: string -> Result<Verdict>, metadata: M)
    returns (r: Result<ValidationResult<M>>)
    ensures r == SentenceValidation(sentences, eval, metadata)
  {
    var unsupported: seq<string>, supported: seq<string> := [], [];
    for i := 0 to |sentences|
      invariant forall j :: 0 <= j < i ==> eval(sentences[j]).Ok?
      invariant supported == Filter(SupportedBy(eval), sentences[..i])
      invariant unsupported == Filter(UnsupportedBy(eval), sentences[..i])
    {
      var sentence := sentences[i];
      var verdict := eval(sentence);
      if verdict.Err? {
        FirstFailureAt(sentences, eval, i);
        return Err(verdict.error);
      }
      SortStep(sentences, eval, i);
      if verdict.value == Yes {
        supported := supported + [sentence];
      } else {
        unsupported := unsupported + [sentence];
      }
    }
    assert sentences[..|sentences|] == sentences;
    if unsupported != [] {
      r := Ok(FailResult(metadata, SentenceFailMessage(unsupported), Join("\n", supported)));
    } else {
      r := Ok(PassResult(metadata));
    }
  }

  /** No sentences, no failure. */
  lemma NoSentencesPass<M>(eval: string -> Result<Verdict>, metadata: M)
    ensures SentenceValidation([], eval, metadata) == Ok(PassResult(metadata))
  {
  }

  /** A failing evaluation is reported as the error of the first sentence that fails. */
  lemma SentenceErrorIsFirstFailure<M>(sentences: seq<string>, eval: string -> Result<Verdict>, metadata: M)
    returns (i: nat)
    requires SentenceValidation(sentences, eval, metadata).Err?
    ensures i < |sentences|
    ensures forall j :: 0 <= j < i ==> eval(sentences[j]).Ok?
    ensures eval(sentences[i]) == Err(SentenceValidation(sentences, eval, metadata).error)
  {
    i := 0;
    while eval(sentences[i]).Ok?
      invariant 0 <= i < |sentences|
      invariant forall j :: 0 <= j < i ==> eval(sentences[j]).Ok?
      decreases |sentences| - i
    {
      i := i + 1;
    }
    FirstFailureAt(sentences, eval, i);
  }

  /** The supported and the unsupported sentences split the sentences into
      two parts, each in the original order, holding every sentence exactly
      as often as the response does. */
  lemma SentencePartition(sentences: seq<string>, eval: string -> Result<Verdict>)
    ensures multiset(Filter(SupportedBy(eval), sentences)) + multiset(Filter(UnsupportedBy(eval), sentences)) ==
      multiset(sentences)
    ensures IsSubsequence(Filter(SupportedBy(eval), sentences), sentences)
    ensures IsSubsequence(Filter(UnsupportedBy(eval), sentences), sentences)
  {
    FilterPartition(SupportedBy(eval), UnsupportedBy(eval), sentences);
    FilterOrdered(SupportedBy(eval), sentences);
    FilterOrdered(UnsupportedBy(eval), sentences);
  }

  /** The bullets, one sentence per line. */
  function BulletLines(sentences: seq<string>): (lines: seq<string>)
    ensures |lines| == |sentences|
  {
    seq(|sentences|, i requires 0 <= i < |sentences| => "- " + sentences[i])
  }

  /** The bullet text is the bullet lines joined by line breaks. */
  lemma {:induction false} BulletsJoined(sentences: seq<string>)
    requires sentences != []
    ensures "- " + Join("\n- ", sentences) == Join("\n", BulletLines(sentences))
    decreases |sentences|
  {
    if |sentences| > 1 {
      var rest := sentences[1..];
      BulletsJoined(rest);
      assert BulletLines(sentences)[1..] == BulletLines(rest);
      assert "- " + (sentences[0] + "\n- " + Join("\n- ", rest)) ==
        ("- " + sentences[0]) + "\n" + ("- " + Join("\n- ", rest));
    }
  }

  /** The error message is the header and a line break, followed by text that,
      for sentences without line breaks, reads back line by line as each
      unsupported sentence, in order, behind a `- ` bullet. */
  lemma FailMessageLines(unsupported: seq<string>)
    requires unsupported != []
    requires forall i :: 0 <= i < |unsupported| ==> '\n' !in unsupported[i]
    ensures var message := SentenceFailMessage(unsupported);
      var n := |SentenceFailHeader| + 1;
      n <= |message| && message[..n] == SentenceFailHeader + "\n" &&
      Split(message[n..], '\n') == BulletLines(unsupported)
  {
    var message := SentenceFailMessage(unsupported);
    var n := |SentenceFailHeader| + 1;
    var bullets := BulletLines(unsupported);
    BulletsJoined(unsupported);
    assert message == (SentenceFailHeader + "\n") + ("- " + Join("\n- ", unsupported));
    assert message[n..] == Join("\n", bullets);
    forall i | 0 <= i < |bullets|
      ensures '\n' !in bullets[i]
    {
      assert bullets[i] == "- " + unsupported[i];
    }
    SplitJoin(bullets, '\n');
  }

  /** What a sentence-mode failure carries: the message lists the unsupported
      sentences, and the fix value is the supported sentences joined by line
      breaks, so that with sentences free of line breaks it splits back into
      exactly them, in the original order. */
  lemma SentenceFailContents<M>(sentences: seq<string>, eval: string -> Result<Verdict>, metadata: M)
    requires SentenceValidation(sentences, eval, metadata).Ok?
    requires SentenceValidation(sentences, eval, metadata).value.FailResult?
    ensures var r := SentenceValidation(sentences, eval, metadata).value;
      var supported := Filter(SupportedBy(eval), sentences);
      var unsupported := Filter(UnsupportedBy(eval), sentences);
      unsupported != [] &&
      r.errorMessage == SentenceFailMessage(unsupported) &&
      r.fixValue == Join("\n", supported) &&
      ((forall i :: 0 <= i < |sentences| ==> '\n' !in sentences[i]) ==>
        Split(r.errorMessage[|SentenceFailHeader| + 1..], '\n') == BulletLines(unsupported) &&
        (supported != [] ==> Split(r.fixValue, '\n') == supported))
  {
    var supported := Filter(SupportedBy(eval), sentences);
    var unsupported := Filter(UnsupportedBy(eval), sentences);
    FilterOrdered(SupportedBy(eval), sentences);
    FilterOrdered(UnsupportedBy(eval), sentences);
    if forall i :: 0 <= i < |sentences| ==> '\n' !in sentences[i] {
      forall i | 0 <= i < |unsupported|
        ensures '\n' !in unsupported[i]
      {
        SubsequenceHolds(unsupported, sentences, i);
      }
      forall i | 0 <= i < |supported|
        ensures '\n' !in supported[i]
      {
        SubsequenceHolds(supported, sentences, i);
      }
      FailMessageLines(unsupported);
      if supported != [] {
        SplitJoin(supported, '\n');
      }
    }
  }

  // ---------------------------------------------------------------------------
  // Full mode and dispatch (`validate_full_text`, `validate`)
  // ---------------------------------------------------------------------------

  /** The full-mode error message. */
  const FullFailMessage: string := "The response is not supported by the provided context."

  /** The outcome of `validate_full_text`: only an outright "no" fails. */
  function FullValidation<M>(value: string, eval: string -> Result<Verdict>, metadata: M): (r: Result<ValidationResult<M>>)
    ensures eval(value).Err? ==> r == Err(eval(value).error)
    ensures eval(value) == Ok(No) ==> r == Ok(FailResult(metadata, FullFailMessage, ""))
    ensures eval(value) == Ok(Yes) ==> r == Ok(PassResult(metadata))
  {
    var verdict :- eval(value);
    if verdict == No then Ok(FailResult(metadata, FullFailMessage, "")) else Ok(PassResult(metadata))
  }

  /** The outcome of `validate` for a configured validation method. */
  function Validation<M>(validationMethod: string, value: string, tokenize: string -> seq<string>,
                         eval: string -> Result<Verdict>, metadata: M): Result<ValidationResult<M>>
  {
    if validationMethod == "sentence" then SentenceValidation(tokenize(value), eval, metadata)
    else if validationMethod == "full" then FullValidation(value, eval, metadata)
    else Err(UnsupportedMethod(validationMethod))
  }

  /** Any method other than "sentence" and "full" is refused, with the message
      naming it. */
  lemma UnsupportedMethodRefused<M>(validationMethod: string, value: string, tokenize: string -> seq<string>,
                                    eval: string -> Result<Verdict>, metadata: M)
    requires RaisesEvaluationErrorsOnly(eval)
    ensures var r := Validation(validationMethod, value, tokenize, eval, metadata);
      r.Err? && r.error.UnsupportedMethod? <==> validationMethod != "sentence" && validationMethod != "full"
    ensures validationMethod != "sentence" && validationMethod != "full" ==>
      ErrorMessage(Validation(validationMethod, value, tokenize, eval, metadata).error) ==
        "Validation method " + validationMethod + " is not supported." + "Please use either 'sentence' or 'full'."
  {
    var r := Validation(validationMethod, value, tokenize, eval, metadata);
    if validationMethod == "sentence" && r.Err? {
      SentenceNeverUnsupported(tokenize(value), eval, metadata);
    }
    if validationMethod == "full" && r.Err? {
      assert eval(value).Err?;
    }
  }

  /** Sentence mode only raises the errors of the evaluations. */
  lemma SentenceNeverUnsupported<M>(sentences: seq<string>, eval: string -> Result<Verdict>, metadata: M)
    requires SentenceValidation(sentences, eval, metadata).Err?
    ensures exists i :: 0 <= i < |sentences| && eval(sentences[i]) == Err(SentenceValidation(sentences, eval, metadata).error)
  {
    var i := SentenceErrorIsFirstFailure(sentences, eval, metadata);
  }

  /** Whatever the mode, a result carries the caller's metadata unchanged. */
  lemma MetadataPassesThrough<M>(validationMethod: string, value: string, tokenize: string -> seq<string>,
                                 eval: string -> Result<Verdict>, metadata: M)
    requires Validation(validationMethod, value, tokenize, eval, metadata).Ok?
    ensures Validation(validationMethod, value, tokenize, eval, metadata).value.metadata == metadata
  {
  }

  // ---------------------------------------------------------------------------
  // The validator object
  // ---------------------------------------------------------------------------

  /** `WikiProvenance`: its configuration, the page it fetched and the
      collection holding that page's chunks. */
  class WikiProvenance {
    const topicName: string
    const validationMethod: string
    const llmCallable: string
    const services: Services
    const page: Page
    const collection: Collection

    /** The collection holds exactly the page's chunks, numbered in order. */
    predicate Valid()
      reads collection
    {
      collection.Valid() &&
      collection.documents == PageChunks(page.content) &&
      collection.ids == ChunkIds(|collection.documents|)
    }

    /** The field assignments of `__init__`: the configuration, the fetched
        page and a new, empty collection named after the topic's hash. */
    constructor (topicName: string, validationMethod: string, llmCallable: string, services: Services, page: Page)
      ensures this.topicName == topicName && this.validationMethod == validationMethod
      ensures this.llmCallable == llmCallable && this.services == services && this.page == page
      ensures fresh(collection) && collection.Valid()
      ensures collection.name == CollectionName(services.hash(topicName))
      ensures collection.documents == [] && collection.ids == []
    {
      this.topicName := topicName;
      this.validationMethod := validationMethod;
      this.llmCallable := llmCallable;
      this.services := services;
      this.page := page;
      collection := new Collection(CollectionName(services.hash(topicName)));
    }

    /** `add_to_collection`: the page's chunks are appended with the ids
        "0" to "n-1" in chunk order. */
    method AddToCollection(pageContent: string)
      requires collection.Valid()
      modifies collection
      ensures collection.Valid()
      ensures collection.documents == old(collection.documents) + PageChunks(pageContent)
      ensures collection.ids == old(collection.ids) + ChunkIds(|PageChunks(pageContent)|)
    {
      var chunks := GetPageChunks(pageContent);
      collection.Add(chunks, ChunkIds(|chunks|));
    }

    /** `get_evaluation`: the closest chunks, the prompt, the model's reply
        and its interpretation. */
    method GetEvaluation(response: string) returns (r: Result<Verdict>)
      ensures r == Evaluation(services, llmCallable, collection.documents, response)
    {
      var closest := ClosestChunks(services.query(collection.documents, response, QueryLimit));
      if closest.Err? {
        return Err(closest.error);
      }
      var prompt := Prompt(response, closest.value);
      var reply := services.complete(llmCallable, prompt);
      if reply.None? {
        return Err(JudgeUnavailable);
      }
      r := Interpret(reply.value);
    }

    /** `validate_each_sentence`: the response's sentences, each judged
        against the stored documents. */
    method ValidateEachSentence<M>(value: string, metadata: M) returns (r: Result<ValidationResult<M>>)
      ensures r == SentenceValidation(services.tokenize(value), Evaluator(services, llmCallable, collection.documents), metadata)
    {
      var sentences := services.tokenize(value);
      r := ValidateSentences(sentences, Evaluator(services, llmCallable, collection.documents), metadata);
    }

    /** `validate_full_text`. */
    method ValidateFullText<M>(value: string, metadata: M) returns (r: Result<ValidationResult<M>>)
      ensures r == FullValidation(value, Evaluator(services, llmCallable, collection.documents), metadata)
    {
      var verdict := GetEvaluation(value);
      if verdict.Err? {
        return Err(verdict.error);
      }
      if verdict.value == No {
        return Ok(FailResult(metadata, FullFailMessage, ""));
      }
      return Ok(PassResult(metadata));
    }

    /** `validate`: dispatch on the configured method. */
    method Validate<M>(value: string, metadata: M) returns (r: Result<ValidationResult<M>>)
      ensures r == Validation(validationMethod, value, services.tokenize,
                              Evaluator(services, llmCallable, collection.documents), metadata)
    {
      if validationMethod == "sentence" {
        r := ValidateEachSentence(value, metadata);
        return;
      }
      if validationMethod == "full" {
        r := ValidateFullText(value, metadata);
        return;
      }
      return Err(UnsupportedMethod(validationMethod));
    }
  }

  /** The validation method used when none is given. */
  const DefaultValidationMethod: string := "sentence"

  /** The judge model used when none is given. */
  const DefaultModel: string := "gpt-3.5-turbo"

  /** Building a `WikiProvenance`: the page is fetched and its chunks are
      indexed; when no page can be fetched, building fails with the fetch's error.
      The validation method and the model may be omitted; the services are
      passed by name. */
  method NewWikiProvenance(topicName: string, validationMethod: string := DefaultValidationMethod,
                           llmCallable: string := DefaultModel, nameonly services: Services)
    returns (r: Result<WikiProvenance>)
    ensures var fetched := FirstPage(topicName, services.search(topicName, SearchLimit), services.fetch);
      (r.Err? <==> fetched.Err?) &&
      (r.Err? ==> r.error == fetched.error) &&
      (r.Ok? ==>
        (fresh(r.value) && fresh(r.value.collection) && r.value.Valid() &&
         r.value.page == fetched.value && r.value.topicName == topicName &&
         r.value.validationMethod == validationMethod && r.value.llmCallable == llmCallable &&
         r.value.services == services &&
         r.value.collection.name == CollectionName(services.hash(topicName))))
  {
    var page := GetWikiPage(topicName, services.search, services.fetch);
    if page.Err? {
      return Err(page.error);
    }
    var validator := new WikiProvenance(topicName, validationMethod, llmCallable, services, page.value);
    validator.AddToCollection(validator.page.content);
    return Ok(validator);
  }

  /** A validator built from a topic alone validates sentence by sentence and
      asks the default model. */
  method NewWikiProvenanceDefaults(topicName: string, services: Services) returns (r: Result<WikiProvenance>)
    ensures r.Err? <==> FirstPage(topicName, services.search(topicName, SearchLimit), services.fetch).Err?
    ensures r.Ok? ==> r.value.validationMethod == "sentence" && r.value.llmCallable == "gpt-3.5-turbo"
    ensures r.Ok? ==> r.value.topicName == topicName
  {
    r := NewWikiProvenance(topicName, services := services);
  }
}
