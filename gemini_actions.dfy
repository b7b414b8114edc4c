/**
 * The server action that turns a piece of document text and a transformation
 * kind into a prompt, hands the prompt to the language-model provider and
 * returns the provider's answer trimmed. The provider itself is abstract: it is
 * the parameter `ask`, a function from a prompt to a reply or a rejection.
 */
module GeminiActions {
  import opened Wrappers
  import opened Strings

  /** The blank line between the parts of every prompt template: a line break, the
      eight spaces of indentation the template literal carries, a line break and
      eight spaces again. */
  const Gap: string := "\n        \n        "

  const CommandTrailer: string := "Respond directly without prefacing with explanations or conclusions."
  const EmptyTextMessage: string := "No text provided for transformation"

  /** The kinds with a prompt of their own; any other kind gets the fallback prompt. */
  const QuotingKinds: seq<string> := ["enhance", "expand", "simplify", "summarize", "rewrite"]

  /** A prompt is `head + text + tail`. */
  datatype Template = Template(head: string, tail: string)

  function Instruction(kind: string): string {
    match kind
    case "enhance" => "Enhance the following text to make it clearer, more engaging, and more professional:"
    case "expand" => "Expand the following text with more details, examples, and explanations:"
    case "simplify" => "Simplify the following text to make it easier to understand, using simpler words and shorter sentences:"
    case "summarize" => "Summarize the following text into a concise version that captures the main points:"
    case "rewrite" => "Rewrite the following text in a different style while preserving the core meaning:"
    case _ => "Improve the following text:"
  }

  /** The closing line of a quoting kind's prompt; each asks for the bare result. */
  function Closing(kind: string): string {
    "Provide only " +
    match kind
    case "enhance" => "the enhanced text without any additional explanations."
    case "expand" => "the expanded text without any additional comments."
    case "simplify" => "the simplified text without any additional explanations."
    case "summarize" => "the summary without any additional explanations."
    case "rewrite" => "the rewritten text without any additional explanations."
    case _ => "the improved text without any additional explanations."
  }

  /** The template the `switch` over the kind selects. The command kind puts the
      text first and unquoted; every other kind quotes it between an instruction
      and a closing line that asks for the bare result. */
  function TemplateFor(kind: string): (tp: Template) {
    if kind == "command" then Template([], Gap + CommandTrailer)
    else Template(Instruction(kind) + Gap + "\"", "\"" + Gap + Closing(kind))
  }

  function Prompt(text: string, kind: string): (prompt: string) {
    var tp := TemplateFor(kind);
    tp.head + text + tp.tail
  }

  /** Reads the text back out of a prompt built for `kind`: the inverse of `Prompt`. */
  function EmbeddedText(prompt: string, kind: string): Option<string> {
    var tp := TemplateFor(kind);
    if |tp.head| + |tp.tail| <= |prompt| && StartsWith(prompt, tp.head)
       && prompt[|prompt| - |tp.tail|..] == tp.tail
    then Some(prompt[|tp.head|..|prompt| - |tp.tail|])
    else None
  }

  /** The prompt carries the text verbatim, so it can be read back out, and two
      different texts never produce the same prompt for one kind. */
  lemma PromptRoundTrip(text: string, kind: string)
    ensures EmbeddedText(Prompt(text, kind), kind) == Some(text)
  {
    var tp := TemplateFor(kind);
    var p := Prompt(text, kind);
    assert p[..|tp.head|] == tp.head;
    assert p[|p| - |tp.tail|..] == tp.tail;
    assert p[|tp.head|..|p| - |tp.tail|] == text;
  }

  /** For a quoting kind the text sits in double quotes between the kind's own
      instruction and a closing line that starts "Provide only ". */
  lemma QuotedPromptShape(text: string, kind: string)
    requires kind in QuotingKinds
    ensures Prompt(text, kind) == Instruction(kind) + Gap + "\"" + text + "\"" + Gap + Closing(kind)
    ensures StartsWith(Closing(kind), "Provide only ")
  {
    var rest := Closing(kind)[|"Provide only "|..];
    assert Closing(kind) == "Provide only " + rest;
    // a quoting kind is not "command": the two of the same length differ at the start
    if kind == "enhance" || kind == "rewrite" {
      assert kind[0] != "command"[0];
    }
    assert TemplateFor(kind) == Template(Instruction(kind) + Gap + "\"", "\"" + Gap + Closing(kind));
  }

  /** The command prompt is the raw text followed by the "Respond directly" line. */
  lemma CommandPromptShape(text: string)
    ensures StartsWith(Prompt(text, "command"), text)
    ensures Prompt(text, "command")[|text|..] == Gap + CommandTrailer
  {
    var p := Prompt(text, "command");
    assert p == text + Gap + CommandTrailer;
    assert p[..|text|] == text;
  }

  /** Any kind outside the six falls back to the "Improve the following text" prompt. */
  lemma UnknownKindFallsBack(text: string, kind: string)
    requires kind !in QuotingKinds && kind != "command"
    ensures Prompt(text, kind) ==
      "Improve the following text:" + Gap + "\"" + text + "\"" + Gap
      + "Provide only " + "the improved text without any additional explanations."
  {
    assert Instruction(kind) == "Improve the following text:";
  }

  /** The message of every rejection of `transformTextWithGemini`. */
  function WrapError(kind: string, message: string): string {
    "Failed to " + kind + " text with Gemini: " + message
  }

  /** `transformTextWithGemini(text, kind)` with the provider call `ask`: rejects
      blank text without consulting the provider; otherwise resolves with the
      provider's reply trimmed, and every rejection, the blank-text one included,
      carries the "Failed to <kind> text with Gemini: " prefix. */
  function TransformText(text: string, kind: string, ask: string -> Result<string>): (r: Result<string>)
    ensures r.Ok? <==> !AllWhitespace(text) && ask(Prompt(text, kind)).Ok?
    ensures r.Ok? ==> r.value == Trim(ask(Prompt(text, kind)).value)
    ensures r.Ok? ==> r.value == [] || (!IsWhitespace(r.value[0]) && !IsWhitespace(r.value[|r.value| - 1]))
    ensures r.Err? ==> StartsWith(r.message, "Failed to " + kind + " text with Gemini: ")
    ensures AllWhitespace(text) ==> r == Err(WrapError(kind, EmptyTextMessage))
  {
    TrimEmptyIff(text);
    if Trim(text) == [] then
      Err(WrapError(kind, EmptyTextMessage))
    else
      match ask(Prompt(text, kind))
      case Ok(reply) =>
        TrimShape(reply);
        Ok(Trim(reply))
      case Err(message) => Err(WrapError(kind, message))
  }

  /** Blank text is rejected the same way whatever the provider would have said:
      no provider call takes place. */
  lemma BlankTextNeverAsks(text: string, kind: string, ask1: string -> Result<string>, ask2: string -> Result<string>)
    requires AllWhitespace(text)
    ensures TransformText(text, kind, ask1) == TransformText(text, kind, ask2)
    ensures TransformText(text, kind, ask1).Err?
  {
  }

  /** For non-blank text the provider is consulted with exactly the kind's prompt:
      two providers that agree on that prompt give the same outcome. */
  lemma OnlyThePromptMatters(text: string, kind: string, ask1: string -> Result<string>, ask2: string -> Result<string>)
    requires ask1(Prompt(text, kind)) == ask2(Prompt(text, kind))
    ensures TransformText(text, kind, ask1) == TransformText(text, kind, ask2)
  {
  }
}
