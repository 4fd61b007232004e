/**
 * Prompt construction of `generateResponse` (`backend/lib/gemini.ts`): with a
 * non-empty context the question is wrapped in a fixed instruction and the
 * context; otherwise the question is sent as it is. The model call itself is
 * a parameter.
 */
module Gemini {
  import opened Wrappers
  import opened Strings

  const Instruction: string :=
    "Based on the following context, please answer the question. If the context doesn't contain relevant information, say so."

  const ContextLabel: string := "\n\nContext: "
  const QuestionLabel: string := "\n\nQuestion: "

  /** The prompt sent for `prompt` and an optional context; an empty context counts as none. */
  function FullPrompt(prompt: string, context: Option<string>): string {
    if context.Some? && context.value != [] then Instruction + ContextLabel + context.value + QuestionLabel + prompt
    else prompt
  }

  /** Without a context, or with an empty one, the question goes out verbatim. */
  lemma FullPromptWithoutContext(prompt: string, context: Option<string>)
    requires context.None? || context.value == []
    ensures FullPrompt(prompt, context) == prompt
  {
  }

  /**
   * With a context, the prompt starts with the instruction (which depends on
   * neither input), holds the context verbatim right after the context
   * label, and ends with the question label and the question.
   */
  lemma FullPromptWithContext(prompt: string, context: string)
    requires context != []
    ensures var r := FullPrompt(prompt, Some(context));
      && |r| == |Instruction| + |ContextLabel| + |context| + |QuestionLabel| + |prompt|
      && r[..|Instruction|] == Instruction
      && OccursAt(context, r, |Instruction| + |ContextLabel|)
      && r[|r| - |prompt| - |QuestionLabel|..] == QuestionLabel + prompt
  {
    var r := FullPrompt(prompt, Some(context));
    var head := Instruction + ContextLabel;
    var tail := QuestionLabel + prompt;
    assert r == head + context + tail;
    ThreeParts(head, context, tail);
    assert r[..|head|][..|Instruction|] == Instruction;
  }

  /** The question can be read back from a prompt built with a known context. */
  lemma FullPromptRecoversQuestion(prompt: string, context: Option<string>)
    ensures var r := FullPrompt(prompt, context);
      var offset := if context.Some? && context.value != [] then |Instruction| + |ContextLabel| + |context.value| + |QuestionLabel| else 0;
      offset <= |r| && r[offset..] == prompt
  {
    if context.Some? && context.value != [] {
      var r := FullPrompt(prompt, context);
      assert r == (Instruction + ContextLabel + context.value + QuestionLabel) + prompt;
    }
  }

  /** `generateResponse(prompt, context)`: the model's answer to the full prompt. */
  function GenerateResponse(generate: string -> Result<string>, prompt: string, context: Option<string>): Result<string> {
    generate(FullPrompt(prompt, context))
  }
}
