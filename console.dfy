/** The console session of `main`, `chat_mode` and `poem_mode`. The source keeps
    the current mode implicitly, in which of three nested `while True` loops is
    running; here it is an explicit `Mode`, each input line causes one `Step`, and
    what the step prints or asks the generators for is an abstract `Action`. */
module Console {
  import opened PyText

  datatype Mode =
    | MainMenu   // the loop of `main`
    | Chat       // the outer loop of `chat_mode`
    | ChatPoem   // the inner loop of `chat_mode`, entered with "poem"
    | Poem       // the loop of `poem_mode`
    | Exited     // `main` has returned or `exit()` was called

  datatype Action =
    | Enter(mode: Mode)              // the banner of `mode` is printed (for MainMenu: the menu again)
    | ChatReply(utterance: string)   // the chat generator answers `utterance`
    | GeneratePoem(theme: string)    // `generate_poem(theme)` is printed between separators
    | ShowTopics                     // the topic catalogue is printed
    | Invalid                        // "Invalid choice. Please try again.", then the menu again
    | Goodbye                        // "Goodbye!" and `main` returns
    | Quit                           // `exit()`

  datatype Transition = Transition(next: Mode, action: Action)

  /** The main-menu choices, compared with the stripped line exactly. */
  datatype Choice = ChooseChat | ChoosePoem | ChooseExit | NoChoice

  function ChoiceOf(text: string): Choice {
    if text == "1" then ChooseChat
    else if text == "2" then ChoosePoem
    else if text == "3" then ChooseExit
    else NoChoice
  }

  /** The sub-mode commands, compared with the lowercased stripped line. */
  datatype Command = MenuCmd | QuitCmd | PoemCmd | BackCmd | TopicsCmd | NoCmd

  function CommandOf(folded: string): Command {
    if folded == "menu" then MenuCmd
    else if folded == "quit" then QuitCmd
    else if folded == "poem" then PoemCmd
    else if folded == "back" then BackCmd
    else if folded == "topics" then TopicsCmd
    else NoCmd
  }

  /** A console line as the loops see it: `text` is the line stripped of surrounding
      whitespace, `choice` what the main menu makes of it and `command` what a
      sub-mode makes of its lowercase form. */
  datatype Input = Input(text: string, choice: Choice, command: Command)

  /** Reading one line: `input(...).strip()`, then the comparisons of the loops. */
  function Read(line: string): (i: Input)
    ensures |i.text| <= |line|
  {
    var text := Strip(line);
    Input(text, ChoiceOf(text), CommandOf(Lower(text)))
  }

  datatype Option = None | Some(mode: Mode)

  /** The mode whose loop directly encloses `m`, if any. */
  function Enclosing(m: Mode): Option
  {
    match m
    case Chat => Some(MainMenu)
    case Poem => Some(MainMenu)
    case ChatPoem => Some(Chat)
    case _ => None
  }

  /** The moves the loop nesting allows: stay, enter a loop nested in this one,
      return to the enclosing loop, or end the process from any depth. */
  predicate Nested(from: Mode, to: Mode) {
    from != Exited &&
    (to == from || to == Exited || Enclosing(to) == Some(from) || Enclosing(from) == Some(to))
  }

  /** One line read in `mode`. The main menu compares the stripped text exactly,
      the sub-modes compare its lowercase form, and chat text and themes are passed
      on stripped but with their original case. */
  function Step(mode: Mode, input: Input): (t: Transition)
    requires mode != Exited
  {
    match mode
    case MainMenu => (
      match input.choice
      case ChooseChat => Transition(Chat, Enter(Chat))
      case ChoosePoem => Transition(Poem, Enter(Poem))
      case ChooseExit => Transition(Exited, Goodbye)
      case NoChoice => Transition(MainMenu, Invalid))
    case Chat => (
      match input.command
      case MenuCmd => Transition(MainMenu, Enter(MainMenu))
      case QuitCmd => Transition(Exited, Quit)
      case PoemCmd => Transition(ChatPoem, Enter(ChatPoem))
      case _ => Transition(Chat, ChatReply(input.text)))
    case ChatPoem => (
      match input.command
      case BackCmd => Transition(Chat, Enter(Chat))
      case QuitCmd => Transition(Exited, Quit)
      case TopicsCmd => Transition(ChatPoem, ShowTopics)
      case _ => Transition(ChatPoem, GeneratePoem(input.text)))
    case Poem => (
      match input.command
      case MenuCmd => Transition(MainMenu, Enter(MainMenu))
      case QuitCmd => Transition(Exited, Quit)
      case TopicsCmd => Transition(Poem, ShowTopics)
      case _ => Transition(Poem, GeneratePoem(input.text)))
  }

  /** Every step respects the loop nesting, prints the banner of any loop it
      starts or returns to, and ends the process exactly when it says goodbye or
      quits. */
  lemma StepRespectsNesting(mode: Mode, input: Input)
    requires mode != Exited
    ensures var t := Step(mode, input);
      Nested(mode, t.next)
      && (t.next != mode && t.next != Exited ==> t.action == Enter(t.next))
      && (t.next == Exited <==> t.action == Goodbye || t.action == Quit)
  {
  }

  /** The mode reached, the actions taken and the number of lines read. */
  datatype Outcome = Outcome(mode: Mode, actions: seq<Action>, consumed: nat)

  /** Feeding `inputs` to the session from `mode`, one loop iteration per input;
      once the session has ended the remaining inputs are never read. */
  function Run(mode: Mode, inputs: seq<Input>): (o: Outcome)
    ensures o.consumed <= |inputs| && |o.actions| == o.consumed
    ensures o.mode != Exited ==> o.consumed == |inputs|
    ensures mode == Exited ==> o == Outcome(Exited, [], 0)
  {
    if inputs == [] then Outcome(mode, [], 0)
    else
      var o := Run(mode, inputs[..|inputs| - 1]);
      if o.mode == Exited then o
      else
        var t := Step(o.mode, inputs[|inputs| - 1]);
        Outcome(t.next, o.actions + [t.action], o.consumed + 1)
  }

  /** Every line read. */
  function ReadAll(lines: seq<string>): (r: seq<Input>)
    ensures |r| == |lines|
  {
    seq(|lines|, i requires 0 <= i < |lines| => Read(lines[i]))
  }

  /** The session from the main menu over the raw console lines, one line per
      iteration of whichever loop is running. */
  method Session(lines: seq<string>) returns (mode: Mode, actions: seq<Action>, consumed: nat)
    ensures Outcome(mode, actions, consumed) == Run(MainMenu, ReadAll(lines))
  {
    ghost var inputs := ReadAll(lines);
    mode, actions, consumed := MainMenu, [], 0;
    while consumed < |lines| && mode != Exited
      invariant consumed <= |lines|
      invariant Outcome(mode, actions, consumed) == Run(MainMenu, inputs[..consumed])
    {
      var input := Read(lines[consumed]);
      var t := Step(mode, input);
      assert inputs[..consumed + 1][..consumed] == inputs[..consumed];
      mode, actions, consumed := t.next, actions + [t.action], consumed + 1;
    }
    if consumed < |lines| {
      ExitIgnoresRest(MainMenu, inputs[..consumed], inputs[consumed..]);
      assert inputs[..consumed] + inputs[consumed..] == inputs;
    } else {
      assert inputs[..consumed] == inputs;
    }
  }

  /** Running two batches of input one after the other is running them together. */
  lemma {:induction false} RunAppend(mode: Mode, a: seq<Input>, b: seq<Input>)
    requires Run(mode, a).mode != Exited
    ensures Run(mode, a + b) == var o := Run(Run(mode, a).mode, b);
      Outcome(o.mode, Run(mode, a).actions + o.actions, |a| + o.consumed)
    decreases |b|
  {
    if b == [] {
      assert a + b == a;
    } else {
      var b', x := b[..|b| - 1], b[|b| - 1];
      assert b == b' + [x] && a + b == (a + b') + [x];
      RunAppend(mode, a, b');
      RunSnoc(mode, a + b', x);
      RunSnoc(Run(mode, a).mode, b', x);
      var r, o := Run(mode, a), Run(Run(mode, a).mode, b');
      if o.mode != Exited {
        var t := Step(o.mode, x);
        assert (r.actions + o.actions) + [t.action] == r.actions + (o.actions + [t.action]);
      }
    }
  }

  /** One more input: the session takes one more step unless it has ended. */
  lemma RunSnoc(mode: Mode, s: seq<Input>, x: Input)
    ensures Run(mode, s + [x]) == var o := Run(mode, s);
      if o.mode == Exited then o
      else
        var t := Step(o.mode, x);
        Outcome(t.next, o.actions + [t.action], o.consumed + 1)
  {
    assert (s + [x])[..|s|] == s;
  }

  /** Once the session has ended, further input changes nothing. */
  lemma {:induction false} ExitIgnoresRest(mode: Mode, a: seq<Input>, b: seq<Input>)
    requires Run(mode, a).mode == Exited
    ensures Run(mode, a + b) == Run(mode, a)
    decreases |b|
  {
    if b == [] {
      assert a + b == a;
    } else {
      assert (a + b)[..|a + b| - 1] == a + b[..|b| - 1];
      ExitIgnoresRest(mode, a, b[..|b| - 1]);
    }
  }

  /** A session ends only on a command to end it: the last input read was "3" at the
      main menu or "quit" in a sub-mode, and no earlier action ended it. */
  lemma {:induction false} ExitIsCommanded(mode: Mode, inputs: seq<Input>)
    requires mode != Exited && Run(mode, inputs).mode == Exited
    ensures var o := Run(mode, inputs);
      o.consumed > 0 && (o.actions[o.consumed - 1] == Goodbye || o.actions[o.consumed - 1] == Quit)
      && forall j :: 0 <= j < o.consumed - 1 ==> o.actions[j] != Goodbye && o.actions[j] != Quit
  {
    var p := Run(mode, inputs[..|inputs| - 1]);
    if p.mode == Exited {
      ExitIsCommanded(mode, inputs[..|inputs| - 1]);
    } else {
      NoEndBeforeExit(mode, inputs[..|inputs| - 1]);
    }
  }

  /** While the session is running, no action so far has ended it. */
  lemma {:induction false} NoEndBeforeExit(mode: Mode, inputs: seq<Input>)
    requires Run(mode, inputs).mode != Exited
    ensures var acts := Run(mode, inputs).actions;
      forall j :: 0 <= j < |acts| ==> acts[j] != Goodbye && acts[j] != Quit
  {
    if inputs != [] {
      NoEndBeforeExit(mode, inputs[..|inputs| - 1]);
    }
  }

  /** The first step of a run, followed by the run from the mode it leads to. */
  lemma RunOne(mode: Mode, input: Input, rest: seq<Input>)
    requires mode != Exited
    ensures var t := Step(mode, input);
      Run(mode, [input] + rest) == var o := Run(t.next, rest);
        Outcome(o.mode, [t.action] + o.actions, o.consumed + 1)
  {
    var t := Step(mode, input);
    assert [input][..0] == [];
    assert Run(mode, [input]) == Outcome(t.next, [t.action], 1);
    if t.next == Exited {
      ExitIgnoresRest(mode, [input], rest);
      assert [t.action] + [] == [t.action];
    } else {
      RunAppend(mode, [input], rest);
    }
  }

  /** "quit", in any letter case and with any surrounding whitespace, ends the
      process at once from Chat, ChatPoem or Poem: the enclosing loops do not run
      again and no further line is read. */
  lemma QuitFromAnyDepth(mode: Mode, line: string, rest: seq<Input>)
    requires mode in {Chat, ChatPoem, Poem} && Lower(Strip(line)) == "quit"
    ensures Run(mode, [Read(line)] + rest) == Outcome(Exited, [Quit], 1)
  {
    RunOne(mode, Read(line), rest);
  }

  /** "topics" in a poem mode prints the catalogue and changes nothing else: the
      session goes on exactly as if the line had not been typed. */
  lemma TopicsChangesNothing(mode: Mode, line: string, rest: seq<Input>)
    requires mode in {ChatPoem, Poem} && Lower(Strip(line)) == "topics"
    ensures var o, o' := Run(mode, [Read(line)] + rest), Run(mode, rest);
      o.mode == o'.mode && o.actions == [ShowTopics] + o'.actions && o.consumed == o'.consumed + 1
  {
    RunOne(mode, Read(line), rest);
  }

  /** ChatPoem is left only through "back" (to Chat) or "quit"; "menu" is a theme
      there, and only "topics" shows the catalogue. */
  lemma ChatPoemExits(line: string)
    ensures Step(ChatPoem, Read(line)).next == Chat <==> Lower(Strip(line)) == "back"
    ensures Step(ChatPoem, Read(line)).next == Exited <==> Lower(Strip(line)) == "quit"
    ensures Step(ChatPoem, Read(line)).next != MainMenu && Step(ChatPoem, Read(line)).next != Poem
    ensures Lower(Strip(line)) == "menu" ==> Step(ChatPoem, Read(line)).action == GeneratePoem(Strip(line))
    ensures Step(ChatPoem, Read(line)).action == ShowTopics <==> Lower(Strip(line)) == "topics"
  {
  }

  /** Chat goes to the main menu on "menu", to ChatPoem on "poem" and ends on
      "quit", in any letter case; every other line is answered and Chat goes on. */
  lemma ChatCommands(line: string)
    ensures Step(Chat, Read(line)).next == MainMenu <==> Lower(Strip(line)) == "menu"
    ensures Step(Chat, Read(line)).next == ChatPoem <==> Lower(Strip(line)) == "poem"
    ensures Step(Chat, Read(line)).next == Exited <==> Lower(Strip(line)) == "quit"
    ensures Step(Chat, Read(line)).next == Chat
      <==> Step(Chat, Read(line)).action == ChatReply(Strip(line))
  {
  }

  /** Poem goes back to the main menu on "menu", ends on "quit" and shows the
      catalogue on "topics"; every other line is a theme. */
  lemma PoemCommands(line: string)
    ensures Step(Poem, Read(line)).next == MainMenu <==> Lower(Strip(line)) == "menu"
    ensures Step(Poem, Read(line)).next == Exited <==> Lower(Strip(line)) == "quit"
    ensures Step(Poem, Read(line)).action == ShowTopics <==> Lower(Strip(line)) == "topics"
    ensures Step(Poem, Read(line)).next != Chat && Step(Poem, Read(line)).next != ChatPoem
  {
  }

  /** The main menu compares the stripped line exactly; anything else is invalid and
      leaves the menu where it was. "3" says goodbye and returns instead of quitting. */
  lemma MainMenuChoices(line: string)
    ensures Step(MainMenu, Read(line)).next == Chat <==> Strip(line) == "1"
    ensures Step(MainMenu, Read(line)).next == Poem <==> Strip(line) == "2"
    ensures Step(MainMenu, Read(line)).next == Exited <==> Strip(line) == "3"
    ensures Step(MainMenu, Read(line)).next == MainMenu <==> Step(MainMenu, Read(line)).action == Invalid
    ensures Step(MainMenu, Read(line)).action == Goodbye <==> Strip(line) == "3"
    ensures Step(MainMenu, Read(line)).action != Quit
  {
  }

  /** Lines read in a poem mode that are not commands become themes, stripped but
      with their letter case kept. */
  lemma ThemesKeepTheirCase(mode: Mode, line: string)
    requires mode in {ChatPoem, Poem}
    requires Step(mode, Read(line)).next == mode && Step(mode, Read(line)).action != ShowTopics
    ensures Step(mode, Read(line)).action == GeneratePoem(Strip(line))
  {
  }

  /** Surrounding whitespace and letter case do not hide a command from a
      sub-mode, and the main menu strips its line too. */
  lemma CommandsAreStrippedAndFolded()
    ensures Step(Chat, Read(" Quit\n")).next == Exited
    ensures Step(Poem, Read("MENU ")).next == MainMenu
    ensures Step(MainMenu, Read(" 2\t")).next == Poem
  {
    assert StripLeft(" Quit\n") == StripLeft("Quit\n") == "Quit\n";
    assert StripRight("Quit\n") == "Quit";
    assert Lower("Quit") == "quit";
    assert StripLeft("MENU ") == "MENU ";
    assert StripRight("MENU ") == "MENU";
    assert Lower("MENU") == "menu";
    assert StripLeft(" 2\t") == "2\t";
    assert StripRight("2\t") == "2";
  }

  /** The deepest mode is reachable: "1" at the main menu, then "poem" in any
      letter case. */
  lemma ChatPoemReachable(first: string, second: string)
    requires Strip(first) == "1" && Lower(Strip(second)) == "poem"
    ensures Run(MainMenu, ReadAll([first, second]))
      == Outcome(ChatPoem, [Enter(Chat), Enter(ChatPoem)], 2)
  {
    MainMenuChoices(first);
    ChatCommands(second);
    var inputs := ReadAll([first, second]);
    assert inputs[..1] == [Read(first)] && inputs[1] == Read(second);
    assert inputs[..1][..0] == [];
    assert Step(MainMenu, Read(first)) == Transition(Chat, Enter(Chat));
    assert Run(MainMenu, inputs[..1]) == Outcome(Chat, [Enter(Chat)], 1);
    assert Step(Chat, Read(second)) == Transition(ChatPoem, Enter(ChatPoem));
  }

  /** Entering chat and typing "menu" comes back to the main menu, which is shown again. */
  lemma ChatAndBack(first: string, second: string)
    requires Strip(first) == "1" && Lower(Strip(second)) == "menu"
    ensures Run(MainMenu, ReadAll([first, second]))
      == Outcome(MainMenu, [Enter(Chat), Enter(MainMenu)], 2)
  {
    MainMenuChoices(first);
    ChatCommands(second);
    var inputs := ReadAll([first, second]);
    assert inputs[..1] == [Read(first)] && inputs[1] == Read(second);
    assert inputs[..1][..0] == [];
    assert Step(MainMenu, Read(first)) == Transition(Chat, Enter(Chat));
    assert Run(MainMenu, inputs[..1]) == Outcome(Chat, [Enter(Chat)], 1);
    assert Step(Chat, Read(second)) == Transition(MainMenu, Enter(MainMenu));
  }

  /** From every mode the session can be ended with one more line: "3" at the main
      menu, "quit" anywhere else. */
  lemma AlwaysEndable(m: Mode, line: string)
    requires m != Exited
    requires if m == MainMenu then Strip(line) == "3" else Lower(Strip(line)) == "quit"
    ensures Run(m, ReadAll([line])).mode == Exited
  {
    MainMenuChoices(line);
    assert ReadAll([line])[..0] == [];
  }
}
