/** The entailment judge of `WikiProvenance` (`get_prompt` and
    `get_evaluation`): a fixed prompt around the claim and its closest page
    chunks is sent to a language model, whose reply must normalise to "yes"
    or "no". The model call is a parameter. */
module Judging {
  import opened Base
  import opened Text

  /** The template of `get_prompt` before the claim. */
  const PromptHead: string :=
    "Instructions:\n" +
    "        As an oracle of logic and intelligence, your task is to determine whether the following 'Contexts' support the 'Claim'.\n" +
    "        Please answer the question with just a 'Yes' or a 'No'. Any other text is strictly forbidden.\n" +
    "        You'll be evaluated based on how well you understand the relationship between the contexts and the claim \n" +
    "        and how well you follow the instructions to answer with a 'Yes' or a 'No'.\n" +
    "\n" +
    "        Claim:\n" +
    "        "

  /** The template between the claim and the contexts. */
  const PromptMiddle: string := "\n\n        Contexts:\n        "

  /** The template after the contexts. */
  const PromptTail: string := "\n\n        Your Answer:\n        \n        "

  /** `get_prompt`: the template with the claim and the chunks, one per line. */
  function Prompt(claim: string, chunks: seq<string>): (p: string)
    ensures |p| == |PromptHead| + |claim| + |PromptMiddle| + |Join("\n", chunks)| + |PromptTail|
    ensures p[..|PromptHead|] == PromptHead && p[|p| - |PromptTail|..] == PromptTail
  {
    FiveParts(PromptHead, claim, PromptMiddle, Join("\n", chunks), PromptTail);
    PromptHead + claim + PromptMiddle + Join("\n", chunks) + PromptTail
  }

  /** The prompt holds the claim verbatim right after the fixed head, and the
      contexts right after that; when the chunks are non-empty and have no line
      break, splitting the contexts on line breaks gives back the chunks, in
      retrieval order. */
  lemma PromptLayout(claim: string, chunks: seq<string>)
    ensures var p := Prompt(claim, chunks);
      var c := |PromptHead| + |claim| + |PromptMiddle|;
      var e := c + |Join("\n", chunks)|;
      StartsWith(p, PromptHead) &&
      p[|PromptHead|..|PromptHead| + |claim|] == claim &&
      p[c..e] == Join("\n", chunks) &&
      p[e..] == PromptTail
    ensures chunks != [] && (forall i :: 0 <= i < |chunks| ==> '\n' !in chunks[i]) ==>
      Split(Join("\n", chunks), '\n') == chunks
  {
    FiveParts(PromptHead, claim, PromptMiddle, Join("\n", chunks), PromptTail);
    if chunks != [] && (forall i :: 0 <= i < |chunks| ==> '\n' !in chunks[i]) {
      SplitJoin(chunks, '\n');
    }
  }

  /** The judge's decision. */
  datatype Verdict = Yes | No

  /** The reply text each verdict is read from. */
  function VerdictText(v: Verdict): string
  {
    match v
    case Yes => "yes"
    case No => "no"
  }

  /** `reply.strip().lower()`. */
  function Normalise(reply: string): string
  {
    Lower(Strip(reply))
  }

  /** The check of `get_evaluation` on a reply: after normalisation it must be
      exactly "yes" or "no"; anything else is an error, never a default. */
  function Interpret(reply: string): (r: Result<Verdict>)
    ensures r.Ok? <==> Normalise(reply) == "yes" || Normalise(reply) == "no"
    ensures r.Ok? ==> Normalise(reply) == VerdictText(r.value)
    ensures r.Err? ==> r.error == InvalidEvaluation
  {
    var text := Normalise(reply);
    if text == "yes" then Ok(Yes)
    else if text == "no" then Ok(No)
    else Err(InvalidEvaluation)
  }

  /** A stripped lower-case text is its own normal form. */
  lemma NormalFormFixed(text: string)
    requires IsStripped(text) && Lower(text) == text
    ensures Normalise(text) == text
  {
    assert Strip(text) == text by {
      StripOfPadded("", text, "");
      assert "" + text + "" == text;
    }
  }

  /** A verdict's own text is read back as that verdict. */
  lemma InterpretVerdictText(v: Verdict)
    ensures Interpret(VerdictText(v)) == Ok(v)
  {
    var t := VerdictText(v);
    assert Lower(t) == t;
    NormalFormFixed(t);
  }

  /** Whitespace around the reply does not change the verdict. */
  lemma InterpretIgnoresPadding(pre: string, reply: string, post: string)
    requires IsBlank(pre) && IsBlank(post)
    ensures Interpret(pre + reply + post) == Interpret(reply)
  {
    StripIgnoresPadding(pre, reply, post);
  }

  /** Letter case does not change the verdict. */
  lemma InterpretIgnoresCase(reply: string)
    ensures Interpret(Lower(reply)) == Interpret(reply)
  {
    LowerStrip(reply);
    LowerIdempotent(Strip(reply));
  }

  /** A reply whose lower-case form is a verdict's text is read as that verdict. */
  lemma InterpretLowersTo(reply: string, v: Verdict)
    requires Lower(reply) == VerdictText(v)
    ensures Interpret(reply) == Ok(v)
  {
    InterpretVerdictText(v);
    InterpretIgnoresCase(reply);
  }

  /** The replies "yes" and "YES" mean yes. */
  lemma InterpretYesAnyCase()
    ensures Interpret("yes") == Ok(Yes)
    ensures Interpret("YES") == Ok(Yes)
  {
    InterpretVerdictText(Yes);
    assert LowerChar('Y') == 'y' && LowerChar('E') == 'e' && LowerChar('S') == 's';
    assert Lower("YES") == "yes";
    InterpretLowersTo("YES", Yes);
  }

  /** A reply such as " Yes \n": blank padding around any letter case of a
      verdict's text is read as that verdict. */
  lemma InterpretPaddedVerdict(pre: string, reply: string, post: string, v: Verdict)
    requires IsBlank(pre) && IsBlank(post)
    requires Lower(reply) == VerdictText(v)
    ensures Interpret(pre + reply + post) == Ok(v)
  {
    InterpretIgnoresPadding(pre, reply, post);
    InterpretLowersTo(reply, v);
  }

  /** A reply other than yes or no, such as "maybe", is an error. */
  lemma InterpretMaybe()
    ensures Interpret("maybe") == Err(InvalidEvaluation)
  {
    assert Lower("maybe") == "maybe";
    NormalFormFixed("maybe");
  }

  /** The judging step of `get_evaluation` on the closest chunks: the prompt is
      sent to the model; a failed call is an error, a reply is interpreted. */
  function Judge(complete: (string, string) -> Option<string>, model: string, claim: string, chunks: seq<string>)
    : (r: Result<Verdict>)
    ensures complete(model, Prompt(claim, chunks)).None? ==> r == Err(JudgeUnavailable)
    ensures complete(model, Prompt(claim, chunks)).Some? ==> r == Interpret(complete(model, Prompt(claim, chunks)).value)
  {
    match complete(model, Prompt(claim, chunks))
    case None => Err(JudgeUnavailable)
    case Some(reply) => Interpret(reply)
  }
}
