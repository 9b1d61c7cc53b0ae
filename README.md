# Poetry Chatbot, modelled in Dafny

A model of the decision logic of the Poetry Chatbot (`Poetry_Chatbot.py`). The
chatbot wraps two text generators in a console program. The model covers the
three pieces of logic that sit around those generators:

- **Prompt dispatch** (`Prompts`): `generate_poem` chooses a prompt for a theme
  with an `if`/`elif` chain of exact, case-sensitive tests, first match wins:
  - "love" and "home" get fixed templates;
  - five theme lists get templates with the theme interpolated;
  - every other theme gets a fallback template.

  The topic catalogue printed by `show_poem_topics` is a constant here.
- **Cleanup and acceptance** (`Poems`): every occurrence of the prompt is removed
  from the generated text and the result is stripped. The text is then shown only
  if it has at least 15 whitespace-separated words and the lowercased text contains
  one of `theme.lower()`, "it", "this" or "that" as a substring. Otherwise a fixed
  apology is returned.
- **Console** (`Console`): the nested `while True` loops of `main`, `chat_mode` and
  `poem_mode` become an explicit transition system. Its modes are `MainMenu`,
  `Chat`, `ChatPoem` (the poem loop inside chat), `Poem` and the terminal `Exited`.
  - Each stripped input line causes one `Step` to a new mode and an abstract
    `Action`.
  - `Run` folds the steps over a sequence of input lines.
  - The method `Session` is the loop itself and is proved equal to `Run`.

The Python string operations these rely on are modelled in `PyText`, over ASCII:
- `lower`: only A–Z are folded;
- `strip` and `split`: whitespace is the ASCII set `str.isspace` accepts, codes
  9–13, 28–31 and 32;
- the substring test `in`;
- `replace(p, "")`.

The decoded text of the poem generator is a parameter (`decoded`), and the chat
generator's answer is the abstract action `ChatReply`.

Cleanup calls `str.replace` with no count (Poetry_Chatbot.py:111). It therefore
removes every non-overlapping occurrence of the prompt, scanning left to right, not
only the first. `RemoveAll` models that, and `Poems.EchoesAtBothEndsAreRemoved`
shows an occurrence at the end being removed as well as the one at the front.

## Model

| member | source | states |
|---|---|---|
| PyText.Lower | Poetry_Chatbot.py:114 | `lower()`: its contract states only that the length is kept; `LowerSpec` states the character mapping |
| PyText.LowerSpec | Poetry_Chatbot.py:114 | `lower()` maps each character on its own, and no upper-case letter is left |
| PyText.LowerIdempotent | Poetry_Chatbot.py:114 | lowering twice is lowering once |
| PyText.StripLeft | Poetry_Chatbot.py:111 | `lstrip`: its contract states only a length bound; `StripLeftSpec` states what is removed |
| PyText.StripLeftSpec | Poetry_Chatbot.py:111 | `lstrip` removes a run of whitespace from the front, and all of it |
| PyText.StripRight | Poetry_Chatbot.py:111 | `rstrip`: its contract states only a length bound; `StripRightSpec` states what is removed |
| PyText.StripRightSpec | Poetry_Chatbot.py:111 | `rstrip` removes a run of whitespace from the back, and all of it |
| PyText.Strip | Poetry_Chatbot.py:111 | `strip()`, also applied to every console line: its contract states only a length bound; `StripSpec` states the result |
| PyText.StripSpec | Poetry_Chatbot.py:111 | `strip()` returns an infix of its input with only whitespace around it, and no whitespace at either end |
| PyText.StripIdempotent | Poetry_Chatbot.py:111 | stripping twice is stripping once |
| PyText.Split | Poetry_Chatbot.py:114 | `split()` returns non-empty words without whitespace; with `SplitWordThen` and `SplitSpaces` this fixes the result on every string: the maximal runs of non-whitespace, in order |
| PyText.SplitWordThen | Poetry_Chatbot.py:114 | a word followed by whitespace or the end is the first word of `split()`, and the rest is split on its own |
| PyText.SplitSpaces | Poetry_Chatbot.py:114 | leading whitespace of any kind and length adds no word |
| PyText.SplitSeparated | Poetry_Chatbot.py:114 | any non-empty run of whitespace after a word is one separator |
| PyText.SplitJoin | Poetry_Chatbot.py:114 | splitting words joined by single spaces gives the same words back, so the word count is the number of words |
| PyText.Contains | Poetry_Chatbot.py:114 | `p in s`: no contract of its own; `ContainsIff` ties it to an occurrence at some index |
| PyText.ContainsIff | Poetry_Chatbot.py:114 | `p in s` holds exactly when `p` occurs at some index of `s`, in both directions |
| PyText.RemoveAll | Poetry_Chatbot.py:111 | `replace(p, "")`: its contract states only that the result is no longer; `RemoveAbsent` and `RemoveAfter` together fix the result on every string |
| PyText.RemoveAbsent | Poetry_Chatbot.py:111 | `replace(p, "")` leaves a string without an occurrence of `p` unchanged |
| PyText.RemoveLeading | Poetry_Chatbot.py:111 | an occurrence at the front is removed and the scan continues after it |
| PyText.RemoveAfter | Poetry_Chatbot.py:111 | the first occurrence after a stretch where none starts is removed, wherever it is, and the scan goes on after it: every non-overlapping occurrence goes, leftmost first |
| PyText.RemoveTrailing | Poetry_Chatbot.py:111 | an occurrence at the end is removed as well: the scan does not stop after the first occurrence |
| Prompts.Classify | Poetry_Chatbot.py:38-81 | the `if`/`elif` chain: no contract of its own; `ListedThemes`, `ExactMatchOnly` and `CatalogIsDispatched` state which theme takes which branch |
| Prompts.Prompt | Poetry_Chatbot.py:38-86 | every theme gets a non-empty prompt |
| Prompts.PromptMentionsTheme | Poetry_Chatbot.py:51-86 | every theme except "love" and "home" appears verbatim in its prompt |
| Prompts.FixedTemplates | Poetry_Chatbot.py:38-50 | "love" and "home" get constant templates, and the "love" template contains "Avoid talking about songs or music." |
| Prompts.ExactMatchOnly | Poetry_Chatbot.py:38-86 | matching is exact and case-sensitive: "Love", "Spring", " home" and "robot" all fall through to the fallback template |
| Prompts.ListedThemes | Poetry_Chatbot.py:51-80 | a theme is in a list exactly when it gets that list's template |
| Prompts.Topics | Poetry_Chatbot.py:126-148 | the listed topics are exactly the topics of the groups |
| Prompts.CatalogOrder | Poetry_Chatbot.py:126-148 | the catalogue has five groups listing the dispatch lists in dispatch order, with "love" among the emotions and "home" among the places |
| Prompts.CatalogIsDispatched | Poetry_Chatbot.py:38-148 | a theme gets a dedicated template exactly when the catalogue lists it |
| Poems.Clean | Poetry_Chatbot.py:111 | the cleaned text is no longer than the decoded text and has no whitespace at either end |
| Poems.Relevant | Poetry_Chatbot.py:114 | the keyword test: no contract of its own; `RelevanceIgnoresCase`, `EmptyThemeIsRelevant`, `SubstringNotWord`, `NoKeywordIsRejected` and `KeywordIsAccepted` state its meaning |
| Poems.Acceptable | Poetry_Chatbot.py:114 | both tests together: no contract of its own; `Finish`, `ShortIsRejected`, `NoKeywordIsRejected` and `KeywordIsAccepted` state its meaning |
| Poems.Finish | Poetry_Chatbot.py:111-117 | the result is the exact apology or the cleaned text unchanged; it is the cleaned text exactly when the text passes both tests |
| Poems.PoemFor | Poetry_Chatbot.py:36-117 | a poem is the apology or the generated text cleaned of the theme's own prompt, and so no longer than the generated text |
| Poems.ShortIsRejected | Poetry_Chatbot.py:114-115 | fewer than 15 words give the apology, whatever the text says |
| Poems.NoKeywordIsRejected | Poetry_Chatbot.py:114-115 | a text in which no keyword occurs at any index gives the apology |
| Poems.KeywordIsAccepted | Poetry_Chatbot.py:114-117 | a text of at least 15 words in which a keyword occurs at some index is returned as cleaned |
| Poems.EchoIsRemoved | Poetry_Chatbot.py:111-117 | for generated text `prompt + s` where `s` does not contain the prompt, cleanup gives `strip(s)`, and the poem is `strip(s)` or the apology |
| Poems.EchoesAtBothEndsAreRemoved | Poetry_Chatbot.py:111 | `prompt + s + prompt` cleans to `strip(s)` when no earlier occurrence overlaps the last one |
| Poems.RelevanceIgnoresCase | Poetry_Chatbot.py:114 | the relevance test gives the same answer for the lowercased text and for the lowercased theme |
| Poems.EmptyThemeIsRelevant | Poetry_Chatbot.py:114 | the empty theme passes the relevance test for every text |
| Poems.SubstringNotWord | Poetry_Chatbot.py:114 | "it" inside "with" makes a text relevant to any theme |
| Console.Read | Poetry_Chatbot.py:158-233 | the text a loop compares is no longer than the raw line |
| Console.Step | Poetry_Chatbot.py:157-243 | one iteration of whichever loop is running: no contract of its own; `StepRespectsNesting`, `MainMenuChoices`, `ChatCommands`, `ChatPoemExits`, `PoemCommands` and `ThemesKeepTheirCase` state its moves |
| Console.StepRespectsNesting | Poetry_Chatbot.py:150-243 | every step stays, enters a nested loop, returns to the enclosing loop or ends the process; a change to another live mode prints that mode's banner; the process ends exactly on Goodbye or Quit |
| Console.Run | Poetry_Chatbot.py:222-243 | one action per line read; a session still running has read every line; nothing happens once the session has ended |
| Console.Session | Poetry_Chatbot.py:231-243 | the loop over the console lines ends in the mode, with the actions and the line count, that `Run` gives |
| Console.RunAppend | Poetry_Chatbot.py:231-243 | feeding two batches of lines one after the other is feeding them together |
| Console.ExitIgnoresRest | Poetry_Chatbot.py:239-241 | once the session has ended, further lines change nothing |
| Console.ExitIsCommanded | Poetry_Chatbot.py:150-243 | a session that ends does so on Goodbye or Quit as its last action, and no earlier action ends it |
| Console.NoEndBeforeExit | Poetry_Chatbot.py:150-243 | while the session runs, none of its actions is Goodbye or Quit |
| Console.RunOne | Poetry_Chatbot.py:231-243 | a run is its first step followed by the run from the mode that step reaches |
| Console.QuitFromAnyDepth | Poetry_Chatbot.py:157-210 | "quit", in any letter case and with any surrounding whitespace, ends the process at once from Chat, ChatPoem or Poem, and no further line is read |
| Console.TopicsChangesNothing | Poetry_Chatbot.py:183-213 | "topics" in a poem loop shows the catalogue, and the session then goes on as if the line had not been typed |
| Console.ChatCommands | Poetry_Chatbot.py:157-195 | in Chat, "menu" returns to the main menu, "poem" enters ChatPoem and "quit" ends the process, each exactly and case-insensitively; any other line is answered and Chat goes on |
| Console.ChatPoemExits | Poetry_Chatbot.py:171-192 | ChatPoem goes back to Chat exactly on "back" and ends exactly on "quit"; it never reaches the main menu or Poem, and "menu" is a theme there; only "topics" shows the catalogue |
| Console.PoemCommands | Poetry_Chatbot.py:204-220 | in Poem, "menu" returns to the main menu, "quit" ends the process and "topics" shows the catalogue, each exactly; Poem never reaches Chat or ChatPoem |
| Console.MainMenuChoices | Poetry_Chatbot.py:231-243 | the stripped line is compared exactly: "1" goes to Chat, "2" to Poem and "3" ends the session; the menu stays exactly when the choice is invalid; "3", and only "3", says goodbye, and the menu never quits |
| Console.ThemesKeepTheirCase | Poetry_Chatbot.py:204-216 | a line that is not a command becomes the theme stripped but with its letter case kept |
| Console.CommandsAreStrippedAndFolded | Poetry_Chatbot.py:157-164 | " Quit\n" in Chat ends the process, "MENU " in Poem returns to the menu and " 2\t" at the menu enters Poem |
| Console.ChatPoemReachable | Poetry_Chatbot.py:157-172 | the deepest mode is reached from the main menu with "1", then "poem" in any letter case, and both banners are shown |
| Console.ChatAndBack | Poetry_Chatbot.py:157-161 | "1" then "menu" returns to the main menu, which is shown again |
| Console.AlwaysEndable | Poetry_Chatbot.py:231-243 | from every live mode one more line ends the session: "3" at the main menu, "quit" anywhere else |

## Left out

- Loading the models and tokenizers (Poetry_Chatbot.py:7-14). These are library calls.
- The chat generator and the poem generator: tokenising, `generate` and decoding.
  The decoded poem text is a parameter of `Poems.Finish` and `Poems.PoemFor`. A
  chat answer is the action `ChatReply` with the stripped line it answers.
- The sampling parameters: temperature, top_p, repetition penalty, beams and token
  limits. These are floating-point settings with no logic here. The `max_length`
  parameter of `generate_poem` is only passed on to the generator, which is not
  modelled (Poetry_Chatbot.py:94, beside `max_new_tokens=60` at :103). Both callers,
  at :188 and :216, leave it at its default of 100.
- The exact console text: banners, menus, prompts and the 50-dash separators. They
  are the abstract actions `Enter`, `ShowTopics`, `Invalid` and `Goodbye`. The
  welcome lines and the first menu, printed before any line is read, have no action.
- `input()`: the console is a finite sequence of lines. When the lines run out,
  the session stops in its current mode. The end-of-file error that `input()`
  would raise is not modelled.
- `exit()` is the terminal mode `Exited` with the action `Quit`. `main` returning
  after "3" is `Exited` with `Goodbye`.
- Unicode: `lower`, `strip` and `split` are modelled on ASCII. Other characters are
  never whitespace and are left unchanged by `Lower`.
- Console.Read: its contract states only a length bound. What a line is read as is
  stated by `MainMenuChoices`, `ChatCommands`, `ChatPoemExits`, `PoemCommands` and
  `ThemesKeepTheirCase`.
