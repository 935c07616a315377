/** `summarize_text`: the fixed prompt that wraps the user's question and the
    retrieved answer, and the stripped reply of the text generator, which is
    the parameter `generate`. */
module Summarizer {
  import opened Wrappers
  import opened PyText

  /** The three fixed pieces of the f-string template, with its exact line
      breaks and indentation; the query goes between the first two and the
      answer text between the last two. */
  const PromptHead: string := "\n        A user asked the following question:\n\n        \""
  const PromptMiddle: string := "\"\n\n        Below is the most relevant answer from Stack Overflow:\n\n        \""
  const PromptTail: string := "\"\n\n        Summarize this in a beginner-friendly manner while keeping code snippets unchanged.\n    "

  /** A two-slot template: `head`, the first slot, `middle`, the second slot,
      `tail`. */
  function Fill(head: string, middle: string, tail: string, first: string, second: string): string
  {
    head + first + middle + second + tail
  }

  /** Reads both slots back out of a filled template, given the length of the
      first one. */
  function Slots(head: string, middle: string, tail: string, filled: string, firstLength: nat): Option<(string, string)>
  {
    var h, m, t := |head|, |middle|, |tail|;
    if |filled| < h + firstLength + m + t then None
    else if filled[..h] == head
         && filled[h + firstLength..h + firstLength + m] == middle
         && filled[|filled| - t..] == tail
    then Some((filled[h..h + firstLength], filled[h + firstLength + m..|filled| - t]))
    else None
  }

  lemma {:induction false} SlotsOfFill(head: string, middle: string, tail: string, first: string, second: string)
    ensures Slots(head, middle, tail, Fill(head, middle, tail, first, second), |first|) == Some((first, second))
  {
    var p := Fill(head, middle, tail, first, second);
    var h, m, t := |head|, |middle|, |tail|;
    var n := |first|;
    assert p == head + (first + (middle + (second + tail)));
    assert p[..h] == head;
    assert p[h..h + n] == first;
    assert p[h + n..h + n + m] == middle;
    assert p[h + n + m..|p| - t] == second;
    assert p[|p| - t..] == tail;
  }

  lemma {:induction false} FillOfSlots(head: string, middle: string, tail: string, filled: string, firstLength: nat)
    requires Slots(head, middle, tail, filled, firstLength).Some?
    ensures var (first, second) := Slots(head, middle, tail, filled, firstLength).value;
            |first| == firstLength && Fill(head, middle, tail, first, second) == filled
  {
    var h, m, t := |head|, |middle|, |tail|;
    var n := firstLength;
    var p := filled;
    assert p == p[..h] + p[h..h + n] + p[h + n..h + n + m] + p[h + n + m..|p| - t] + p[|p| - t..];
  }

  /** The prompt sent to the generator. A function, so the same query and text
      always yield the same prompt. */
  function Prompt(query: string, text: string): string
  {
    Fill(PromptHead, PromptMiddle, PromptTail, query, text)
  }

  /** Reads the query and the answer text back out of a prompt, given the
      length of the query (the template does not escape its quotes, so the
      boundary cannot be found from the prompt alone). */
  function PromptSlots(prompt: string, queryLength: nat): Option<(string, string)>
  {
    Slots(PromptHead, PromptMiddle, PromptTail, prompt, queryLength)
  }

  /** The prompt embeds the query and the text verbatim, at fixed places. */
  lemma PromptRoundTrip(query: string, text: string)
    ensures PromptSlots(Prompt(query, text), |query|) == Some((query, text))
  {
    SlotsOfFill(PromptHead, PromptMiddle, PromptTail, query, text);
  }

  /** Conversely, whatever PromptSlots reads out of a prompt rebuilds it. */
  lemma PromptSlotsSound(prompt: string, queryLength: nat)
    requires PromptSlots(prompt, queryLength).Some?
    ensures var (query, text) := PromptSlots(prompt, queryLength).value;
            |query| == queryLength && Prompt(query, text) == prompt
  {
    FillOfSlots(PromptHead, PromptMiddle, PromptTail, prompt, queryLength);
  }

  /** Two prompts for queries of the same length are equal only when both the
      queries and the texts are. */
  lemma PromptInjective(q1: string, t1: string, q2: string, t2: string)
    requires |q1| == |q2| && Prompt(q1, t1) == Prompt(q2, t2)
    ensures q1 == q2 && t1 == t2
  {
    PromptRoundTrip(q1, t1);
    PromptRoundTrip(q2, t2);
  }

  lemma {:induction false} FillAmbiguous(head: string, middle: string, tail: string)
    ensures Fill(head, middle, tail, middle + "a", "") == Fill(head, middle, tail, "", "a" + middle)
  {
    assert head + (middle + "a") + middle + "" + tail == head + "" + middle + ("a" + middle) + tail;
  }

  /** Without the query's length the prompt is ambiguous: a query that itself
      contains the middle of the template gives the same prompt as a
      different query and text. */
  lemma PromptNotEscaped()
    ensures PromptMiddle + "a" != ""
    ensures Prompt(PromptMiddle + "a", "") == Prompt("", "a" + PromptMiddle)
  {
    FillAmbiguous(PromptHead, PromptMiddle, PromptTail);
  }

  /** `summarize_text`: the generator's reply to the prompt, with only its
      surrounding whitespace removed. */
  function Summarize(query: string, text: string, generate: string -> string): (r: string)
    ensures Stripped(r)
    ensures r == [] <==> AllSpace(generate(Prompt(query, text)))
    ensures exists a, b :: AllSpace(a) && AllSpace(b) && generate(Prompt(query, text)) == a + r + b
  {
    StripRemovesOnlySpace(generate(Prompt(query, text)));
    Strip(generate(Prompt(query, text)))
  }
}
