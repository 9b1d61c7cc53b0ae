/** What `PoetryChatbot.generate_poem` does with the generator's text: it removes
    the echoed prompt, trims the result and either accepts it as a poem or replaces
    it with a fixed apology. The generator itself is not modelled: its decoded
    output is a parameter. */
module Poems {
  import opened PyText
  import opened Prompts

  /** Returned instead of a text that fails the acceptance test. */
  const Apology: string :=
    "I apologize, but I couldn't generate a proper poem. Please try again with a different prompt or topic."

  /** A poem needs at least this many whitespace-separated words. */
  const MinWords: nat := 15

  /** `decoded.replace(prompt, "").strip()` */
  function Clean(prompt: string, decoded: string): (r: string)
    ensures |r| <= |decoded|
    ensures r == [] || (!IsSpace(r[0]) && !IsSpace(r[|r| - 1]))
  {
    var t := RemoveAll(decoded, prompt);
    StripSpec(t);
    Strip(t)
  }

  /** The strings of which one must occur in the lowercased text. */
  function Keywords(theme: string): seq<string> {
    [Lower(theme), "it", "this", "that"]
  }

  /** Some keyword is a substring (not necessarily a word) of the lowercased text. */
  predicate Relevant(theme: string, text: string) {
    exists k | k in Keywords(theme) :: Contains(Lower(text), k)
  }

  /** The acceptance test applied to the cleaned text. */
  predicate Acceptable(theme: string, text: string) {
    |Split(text)| >= MinWords && Relevant(theme, text)
  }

  /** The poem shown for `theme`, given the prompt used and the generator's text. */
  function Finish(theme: string, prompt: string, decoded: string): (r: string)
    ensures r == Apology || r == Clean(prompt, decoded)
    ensures r == Clean(prompt, decoded) || !Acceptable(theme, Clean(prompt, decoded))
    ensures Acceptable(theme, Clean(prompt, decoded)) || r == Apology
  {
    var text := Clean(prompt, decoded);
    if |Split(text)| < MinWords || !Relevant(theme, text) then Apology else text
  }

  /** `generate_poem(theme)` once the generator has produced `decoded`. */
  function PoemFor(theme: string, decoded: string): (r: string)
    ensures r == Apology || r == Clean(Prompt(theme), decoded)
    ensures r == Apology || |r| <= |decoded|
  {
    Finish(theme, Prompt(theme), decoded)
  }

  /** A text of fewer than fifteen words is rejected, whatever it says. */
  lemma ShortIsRejected(theme: string, prompt: string, decoded: string)
    requires |Split(Clean(prompt, decoded))| < MinWords
    ensures Finish(theme, prompt, decoded) == Apology
  {
  }

  /** A text in which no keyword occurs at any position is rejected. */
  lemma NoKeywordIsRejected(theme: string, prompt: string, decoded: string)
    requires forall k, i :: k in Keywords(theme) ==> !OccursAt(Lower(Clean(prompt, decoded)), k, i)
    ensures Finish(theme, prompt, decoded) == Apology
  {
    var low := Lower(Clean(prompt, decoded));
    forall k | k in Keywords(theme)
      ensures !Contains(low, k)
    {
      ContainsIff(low, k);
    }
  }

  /** A long enough text in which some keyword occurs at some position is shown
      exactly as cleaned. */
  lemma KeywordIsAccepted(theme: string, prompt: string, decoded: string, k: string, i: int)
    requires |Split(Clean(prompt, decoded))| >= MinWords
    requires k in Keywords(theme) && OccursAt(Lower(Clean(prompt, decoded)), k, i)
    ensures Finish(theme, prompt, decoded) == Clean(prompt, decoded)
  {
    ContainsAt(Lower(Clean(prompt, decoded)), k, i);
  }

  /** The usual shape of the generator's output: the prompt, then the continuation.
      When the continuation does not repeat the prompt, the result is the trimmed
      continuation, or the apology. */
  lemma EchoIsRemoved(theme: string, s: string)
    requires !Contains(s, Prompt(theme))
    ensures Clean(Prompt(theme), Prompt(theme) + s) == Strip(s)
    ensures PoemFor(theme, Prompt(theme) + s)
      == if Acceptable(theme, Strip(s)) then Strip(s) else Apology
  {
    RemoveLeading(Prompt(theme), s);
    RemoveAbsent(s, Prompt(theme));
  }

  /** An echo at the end is removed as well as the one at the front. */
  lemma EchoesAtBothEndsAreRemoved(prompt: string, s: string)
    requires prompt != []
    requires forall i :: 0 <= i < |s| ==> !OccursAt(s + prompt, prompt, i)
    ensures Clean(prompt, prompt + s + prompt) == Strip(s)
  {
    assert prompt + s + prompt == prompt + (s + prompt);
    RemoveLeading(prompt, s + prompt);
    RemoveTrailing(s, prompt);
  }

  /** The relevance test ignores the case of both the theme and the text. */
  lemma RelevanceIgnoresCase(theme: string, text: string)
    ensures Relevant(theme, text) == Relevant(theme, Lower(text))
    ensures Relevant(theme, text) == Relevant(Lower(theme), text)
  {
    LowerIdempotent(text);
    LowerIdempotent(theme);
    assert Keywords(theme) == Keywords(Lower(theme));
  }

  /** The empty theme occurs in every text, so it passes the relevance test. */
  lemma EmptyThemeIsRelevant(text: string)
    ensures Relevant("", text)
  {
    var k := Keywords("")[0];
    assert k == [] && k in Keywords("");
    assert IsPrefix(k, Lower(text));
  }

  /** "it" inside "with" makes a text relevant to any theme. */
  lemma SubstringNotWord(theme: string)
    ensures Relevant(theme, "with")
  {
    assert Lower("with") == "with";
    assert OccursAt("with", "it", 1);
    ContainsAt("with", "it", 1);
    assert Keywords(theme)[1] == "it";
  }
}
