/** The text part of `PromptBatchSelector.combine_prompt` in nodes/Loop_Counter.py. */
module PromptBatchSelector {
  import opened Text

  /** `prompts_by_line.strip().split('\n')`: the candidate lines, 1-based for the node's user. */
  function Lines(promptsByLine: string): seq<string>
  {
    Split(Strip(promptsByLine), '\n')
  }

  /** The final prompt handed to the text encoder. */
  function CombinePrompt(batchIndex: int, commonPrompt: string, promptsByLine: string): string
  {
    var prompts := Lines(promptsByLine);
    var idx := batchIndex - 1;
    var extraPrompt := if 0 <= idx < |prompts| then Strip(prompts[idx]) else "";
    Strip(Strip(commonPrompt) + " " + Strip(extraPrompt))
  }

  /** There is always at least one line; no line holds a newline; the lines make up the stripped block. */
  lemma LinesShape(promptsByLine: string)
    ensures |Lines(promptsByLine)| >= 1
    ensures forall k :: 0 <= k < |Lines(promptsByLine)| ==> '\n' !in Lines(promptsByLine)[k]
    ensures Join(Lines(promptsByLine), '\n') == Strip(promptsByLine)
  {
  }

  /** Both sides of the join are stripped before they meet. */
  lemma CombineStripped(commonPrompt: string, extraPrompt: string)
    ensures Strip(Strip(commonPrompt) + " " + Strip(extraPrompt)) == SpaceJoin(Strip(commonPrompt), Strip(extraPrompt))
    ensures IsStripped(SpaceJoin(Strip(commonPrompt), Strip(extraPrompt)))
  {
    var _, _ := StripIsTrimmedSlice(commonPrompt);
    var _, _ := StripIsTrimmedSlice(extraPrompt);
    StripSpaceJoin(Strip(commonPrompt), Strip(extraPrompt));
  }

  /**
   * An index naming an existing line (1-based) joins the stripped common text and the stripped
   * line with one space, and no space when either is empty.
   */
  lemma CombinePromptInRange(batchIndex: int, commonPrompt: string, promptsByLine: string)
    requires 1 <= batchIndex <= |Lines(promptsByLine)|
    ensures CombinePrompt(batchIndex, commonPrompt, promptsByLine) ==
      SpaceJoin(Strip(commonPrompt), Strip(Lines(promptsByLine)[batchIndex - 1]))
    ensures IsStripped(CombinePrompt(batchIndex, commonPrompt, promptsByLine))
  {
    var line := Lines(promptsByLine)[batchIndex - 1];
    StripIdempotent(line);
    CombineStripped(commonPrompt, Strip(line));
  }

  /** Any other index (0, negative, past the last line) degrades to the stripped common text. */
  lemma CombinePromptOutOfRange(batchIndex: int, commonPrompt: string, promptsByLine: string)
    requires !(1 <= batchIndex <= |Lines(promptsByLine)|)
    ensures CombinePrompt(batchIndex, commonPrompt, promptsByLine) == Strip(commonPrompt)
  {
    assert CombinePrompt(batchIndex, commonPrompt, promptsByLine) == Strip(Strip(commonPrompt) + " " + Strip(""));
    CommonAlone(commonPrompt);
  }

  /** With no line to add, the join leaves the stripped common text. */
  lemma CommonAlone(commonPrompt: string)
    ensures Strip(Strip(commonPrompt) + " " + Strip("")) == Strip(commonPrompt)
  {
    var empty: string := [];
    assert Strip(empty) == empty;
    CombineStripped(commonPrompt, empty);
  }
}
