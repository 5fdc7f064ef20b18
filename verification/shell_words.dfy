/**
 * `quoteShellArg` against the word parsing of a POSIX shell: sections 2.2.1 (escape character) and 2.2.2
 * (single-quotes) of the Shell Command Language, IEEE Std 1003.1-2017. Characters that mean anything else
 * to the shell when unquoted - expansions, operators, double-quotes, globs - are outside this parser, which
 * gives up on them; a string with a NUL byte cannot be an argument at all, and the parser does not care.
 */
module ShellWords {
  import opened Common

  // ----- The printer -----

  /** `value.replaceAll("'", "'\\''")`: every quote becomes quote, backslash, quote, quote. */
  function ReplaceQuotes(s: string): string {
    if s == "" then ""
    else (if s[0] == '\'' then "'\\''" else [s[0]]) + ReplaceQuotes(s[1..])
  }

  function QuoteShellArg(s: string): string {
    "'" + ReplaceQuotes(s) + "'"
  }

  // ----- The parser -----

  /** Where the scan stands: between words, in a word, inside single-quotes, or just after a backslash. */
  datatype Mode = Between | Word(text: string) | Quoted(text: string) | Escaped(before: Mode)

  datatype Lexer = Lexer(words: seq<string>, mode: Mode)

  const START := Lexer([], Between)

  predicate IsBlank(c: char) {
    c == ' ' || c == '\t'
  }

  /** Characters that, unquoted, may make the shell do something other than take them literally. */
  predicate IsSpecial(c: char) {
    c in {'|', '&', ';', '<', '>', '(', ')', '$', '`', '"', '*', '?', '[', '#', '~', '=', '%', '{', '}', '!', '\n', '\r'}
  }

  function TextOf(mode: Mode): string {
    match mode
    case Word(text) => text
    case Quoted(text) => text
    case _ => ""
  }

  /** One character of input; `None` when it is not this parser's to interpret. */
  function Scan(lexer: Lexer, c: char): Option<Lexer> {
    match lexer.mode
    case Quoted(text) =>
      Some(lexer.(mode := if c == '\'' then Word(text) else Quoted(text + [c])))
    case Escaped(before) =>
      if c == '\n' then Some(lexer.(mode := before)) else Some(lexer.(mode := Word(TextOf(before) + [c])))
    case _ =>
      if c == '\'' then Some(lexer.(mode := Quoted(TextOf(lexer.mode))))
      else if c == '\\' then Some(lexer.(mode := Escaped(lexer.mode)))
      else if IsBlank(c) then Some(Lexer(Ended(lexer), Between))
      else if IsSpecial(c) then None
      else Some(lexer.(mode := Word(TextOf(lexer.mode) + [c])))
  }

  /** The words so far, with the one in progress. */
  function Ended(lexer: Lexer): seq<string> {
    if lexer.mode.Word? then lexer.words + [lexer.mode.text] else lexer.words
  }

  function ScanAll(lexer: Lexer, input: string): Option<Lexer>
    decreases |input|
  {
    if input == "" then Some(lexer)
    else
      match Scan(lexer, input[0])
      case None => None
      case Some(next) => ScanAll(next, input[1..])
  }

  /** The words of a whole command line; an open quote or a trailing backslash is an error. */
  function ShellWords(input: string): Option<seq<string>> {
    match ScanAll(START, input)
    case None => None
    case Some(lexer) => if lexer.mode.Quoted? || lexer.mode.Escaped? then None else Some(Ended(lexer))
  }

  // ----- Printing then parsing -----

  lemma {:induction false} ScanAllOfConcatenation(lexer: Lexer, a: string, b: string)
    ensures ScanAll(lexer, a + b)
         == match ScanAll(lexer, a) case None => None case Some(middle) => ScanAll(middle, b)
    decreases |a|
  {
    hide Scan;
    if a == "" {
      assert a + b == b;
    } else {
      assert (a + b)[1..] == a[1..] + b;
      if Scan(lexer, a[0]).Some? {
        ScanAllOfConcatenation(Scan(lexer, a[0]).value, a[1..], b);
      }
    }
  }

  /** The four characters that stand for a quote leave the quotes, add a quote, and enter them again. */
  lemma ScanEscapedQuote(words: seq<string>, text: string)
    ensures ScanAll(Lexer(words, Quoted(text)), "'\\''") == Some(Lexer(words, Quoted(text + "'")))
  {
    var l0 := Lexer(words, Quoted(text));
    var l1 := Lexer(words, Word(text));
    var l2 := Lexer(words, Escaped(Word(text)));
    var l3 := Lexer(words, Word(text + "'"));
    var l4 := Lexer(words, Quoted(text + "'"));
    assert Scan(l0, '\'') == Some(l1) && Scan(l1, '\\') == Some(l2) && Scan(l2, '\'') == Some(l3) && Scan(l3, '\'') == Some(l4);
    hide Scan;
    assert "'\\''"[1..] == "\\''" && "\\''"[1..] == "''" && "''"[1..] == "'" && "'"[1..] == "";
    assert ScanAll(l4, "") == Some(l4);
    assert ScanAll(l3, "'") == Some(l4);
    assert ScanAll(l2, "''") == Some(l4);
    assert ScanAll(l1, "\\''") == Some(l4);
  }

  lemma {:induction false} ScanReplaced(words: seq<string>, text: string, s: string)
    ensures ScanAll(Lexer(words, Quoted(text)), ReplaceQuotes(s)) == Some(Lexer(words, Quoted(text + s)))
    decreases |s|
  {
    if s == "" {
      assert text + s == text;
    } else {
      var first := if s[0] == '\'' then "'\\''" else [s[0]];
      ScanAllOfConcatenation(Lexer(words, Quoted(text)), first, ReplaceQuotes(s[1..]));
      if s[0] == '\'' {
        ScanEscapedQuote(words, text);
      } else {
        assert first[1..] == "";
        assert ScanAll(Lexer(words, Quoted(text)), first) == Some(Lexer(words, Quoted(text + first)));
      }
      ScanReplaced(words, text + [s[0]], s[1..]);
      assert text + [s[0]] + s[1..] == text + s;
    }
  }

  /** A quoted argument, wherever it starts, adds exactly its own text to the word in progress. */
  lemma ScanQuoted(words: seq<string>, mode: Mode, s: string)
    requires mode.Between? || mode.Word?
    ensures ScanAll(Lexer(words, mode), QuoteShellArg(s)) == Some(Lexer(words, Word(TextOf(mode) + s)))
  {
    var text := TextOf(mode);
    var body := ReplaceQuotes(s);
    assert QuoteShellArg(s)[1..] == body + "'";
    assert Scan(Lexer(words, mode), '\'') == Some(Lexer(words, Quoted(text)));
    ScanAllOfConcatenation(Lexer(words, Quoted(text)), body, "'");
    ScanReplaced(words, text, s);
    assert Scan(Lexer(words, Quoted(text + s)), '\'') == Some(Lexer(words, Word(text + s)));
    assert "'"[1..] == "";
    assert ScanAll(Lexer(words, Quoted(text + s)), "'") == Some(Lexer(words, Word(text + s)));
  }

  /** For every string, parsing its quotation yields that string, as one word and nothing else. */
  lemma QuotedIsOneWord(s: string)
    ensures ShellWords(QuoteShellArg(s)) == Some([s])
  {
    ScanQuoted([], Between, s);
    assert "" + s == s;
    assert [] + [s] == [s];
  }

  /** A command that parses, followed by a blank and a quoted argument, gains exactly that last argument. */
  lemma AppendQuoted(command: string, s: string)
    requires ShellWords(command).Some?
    ensures ShellWords(command + " " + QuoteShellArg(s)) == Some(ShellWords(command).value + [s])
  {
    var lexer := ScanAll(START, command).value;
    var words := Ended(lexer);
    assert Scan(lexer, ' ') == Some(Lexer(words, Between));
    assert " "[1..] == "";
    assert ScanAll(lexer, " ") == Some(Lexer(words, Between));
    ScanAllOfConcatenation(START, command, " ");
    ScanAllOfConcatenation(START, command + " ", QuoteShellArg(s));
    ScanQuoted(words, Between, s);
    assert "" + s == s;
  }

  /** Quoted arguments, separated by blanks. */
  function QuoteAll(args: seq<string>): string {
    if args == [] then ""
    else if |args| == 1 then QuoteShellArg(args[0])
    else QuoteAll(args[..|args| - 1]) + " " + QuoteShellArg(args[|args| - 1])
  }

  /** Any list of strings whatever comes back as that list of words. */
  lemma {:induction false} QuoteAllRoundTrip(args: seq<string>)
    ensures ShellWords(QuoteAll(args)) == Some(args)
  {
    if |args| == 1 {
      QuotedIsOneWord(args[0]);
      assert args == [args[0]];
    } else if |args| > 1 {
      var front := args[..|args| - 1];
      QuoteAllRoundTrip(front);
      AppendQuoted(QuoteAll(front), args[|args| - 1]);
      assert front + [args[|args| - 1]] == args;
    }
  }

  // ----- Nesting -----

  function QuoteTimes(s: string, n: nat): string {
    if n == 0 then s else QuoteShellArg(QuoteTimes(s, n - 1))
  }

  /** What `n` shells, one inside another, each taking the single word it is given, end up with. */
  function UnwrapTimes(input: string, n: nat): Option<string>
    decreases n
  {
    if n == 0 then Some(input)
    else
      match ShellWords(input)
      case Some(words) => if |words| == 1 then UnwrapTimes(words[0], n - 1) else None
      case None => None
  }

  lemma {:induction false} NestedRoundTrip(s: string, n: nat)
    ensures UnwrapTimes(QuoteTimes(s, n), n) == Some(s)
  {
    if n > 0 {
      QuotedIsOneWord(QuoteTimes(s, n - 1));
      NestedRoundTrip(s, n - 1);
    }
  }

  // ----- The launch command of an agent -----

  /** ` --model <quoted>` for a model that is given, as the Codex adapter builds it. */
  function ModelFlag(model: string): string {
    if model == "" then "" else " --model " + QuoteShellArg(model)
  }

  /** What an unattended run adds. */
  const ASK := "--ask-for-approval"
  const NEVER := "never"
  const SANDBOX := "--sandbox"
  const WORKSPACE := "workspace-write"
  const AUTO_ARGS := " " + ASK + " " + NEVER + " " + SANDBOX + " " + WORKSPACE

  function LaunchCommand(prompt: string, model: string, unattended: bool): string {
    var command := "codex" + ModelFlag(model) + (if unattended then AUTO_ARGS else "");
    if prompt == "" then command else command + " " + QuoteShellArg(prompt)
  }

  /** A character that is a word's own wherever it stands unquoted. */
  predicate IsPlain(c: char) {
    'a' <= c <= 'z' || c == '-'
  }

  lemma {:induction false} ScanPlain(words: seq<string>, mode: Mode, s: string)
    requires (mode.Between? || mode.Word?) && s != "" && forall c <- s :: IsPlain(c)
    ensures ScanAll(Lexer(words, mode), s) == Some(Lexer(words, Word(TextOf(mode) + s)))
    decreases |s|
  {
    var next := Lexer(words, Word(TextOf(mode) + [s[0]]));
    assert s[0] in s;
    assert Scan(Lexer(words, mode), s[0]) == Some(next);
    if |s| == 1 {
      assert s == [s[0]] && s[1..] == "";
    } else {
      assert forall c <- s[1..] :: c in s;
      ScanPlain(words, next.mode, s[1..]);
      assert TextOf(mode) + [s[0]] + s[1..] == TextOf(mode) + s;
    }
  }

  /** A command that parses, followed by a blank and a plain word, gains exactly that word. */
  lemma AppendPlain(command: string, s: string)
    requires ShellWords(command).Some? && s != "" && forall c <- s :: IsPlain(c)
    ensures ShellWords(command + " " + s) == Some(ShellWords(command).value + [s])
  {
    var lexer := ScanAll(START, command).value;
    var words := Ended(lexer);
    assert Scan(lexer, ' ') == Some(Lexer(words, Between));
    assert " "[1..] == "";
    assert ScanAll(lexer, " ") == Some(Lexer(words, Between));
    ScanAllOfConcatenation(START, command, " ");
    ScanAllOfConcatenation(START, command + " ", s);
    ScanPlain(words, Between, s);
    assert "" + s == s;
  }

  function ModelWords(model: string): seq<string> {
    if model == "" then [] else ["--model", model]
  }

  function AutoWords(unattended: bool): seq<string> {
    if unattended then [ASK, NEVER, SANDBOX, WORKSPACE] else []
  }

  lemma PlainWords()
    ensures forall c <- "codex" :: IsPlain(c)
    ensures forall c <- "--model" :: IsPlain(c)
    ensures forall c <- ASK :: IsPlain(c)
    ensures forall c <- NEVER :: IsPlain(c)
    ensures forall c <- SANDBOX :: IsPlain(c)
    ensures forall c <- WORKSPACE :: IsPlain(c)
  {
  }

  lemma CommandNameWords()
    ensures ShellWords("codex") == Some(["codex"])
  {
    PlainWords();
    hide IsPlain, Scan;
    ScanPlain([], Between, "codex");
    assert "" + "codex" == "codex";
    assert [] + ["codex"] == ["codex"];
  }

  lemma AppendModel(command: string, model: string)
    requires ShellWords(command).Some?
    ensures ShellWords(command + ModelFlag(model)) == Some(ShellWords(command).value + ModelWords(model))
  {
    hide ShellWords, IsPlain, QuoteShellArg;
    if model == "" {
      assert command + "" == command;
      assert ShellWords(command).value + [] == ShellWords(command).value;
    } else {
      PlainWords();
      var words := ShellWords(command).value;
      AppendPlain(command, "--model");
      AppendQuoted(command + " " + "--model", model);
      assert command + ModelFlag(model) == command + " " + "--model" + " " + QuoteShellArg(model);
      assert words + ["--model"] + [model] == words + ModelWords(model);
    }
  }

  lemma AppendAuto(command: string)
    requires ShellWords(command).Some?
    ensures ShellWords(command + AUTO_ARGS) == Some(ShellWords(command).value + AutoWords(true))
  {
    hide ShellWords, IsPlain;
    PlainWords();
    var words := ShellWords(command).value;
    var d1 := command + " " + ASK;
    AppendPlain(command, ASK);
    var d2 := d1 + " " + NEVER;
    AppendPlain(d1, NEVER);
    var d3 := d2 + " " + SANDBOX;
    AppendPlain(d2, SANDBOX);
    AppendPlain(d3, WORKSPACE);
    assert d3 + " " + WORKSPACE == command + AUTO_ARGS;
    assert words + [ASK] + [NEVER] + [SANDBOX] + [WORKSPACE] == words + AutoWords(true);
  }

  /** The shell runs the agent with exactly the intended arguments, whatever the model and the prompt contain. */
  lemma LaunchCommandWords(prompt: string, model: string, unattended: bool)
    ensures ShellWords(LaunchCommand(prompt, model, unattended))
         == Some(["codex"]
                 + (if model == "" then [] else ["--model", model])
                 + (if unattended then ["--ask-for-approval", "never", "--sandbox", "workspace-write"] else [])
                 + (if prompt == "" then [] else [prompt]))
  {
    assert ModelWords(model) == if model == "" then [] else ["--model", model];
    assert AutoWords(unattended)
        == if unattended then ["--ask-for-approval", "never", "--sandbox", "workspace-write"] else [];
    hide ShellWords, QuoteShellArg, ModelFlag, ModelWords, AutoWords;
    CommandNameWords();
    AppendModel("codex", model);
    var c1 := "codex" + ModelFlag(model);
    var c2 := c1 + (if unattended then AUTO_ARGS else "");
    var words := ["codex"] + ModelWords(model);
    if unattended {
      AppendAuto(c1);
    } else {
      assert c2 == c1;
      NoAutoWords();
      assert words + [] == words;
    }
    if prompt == "" {
      assert words + AutoWords(unattended) + [] == words + AutoWords(unattended);
    } else {
      AppendQuoted(c2, prompt);
    }
  }

  lemma NoAutoWords()
    ensures AutoWords(false) == []
  {
  }

  /** `sh -c <quoted script>`, as the null agent is launched: the inner shell gets the script, unchanged. */
  lemma ScriptLaunchWords(script: string)
    ensures ShellWords("sh" + " " + "-c" + " " + QuoteShellArg(script)) == Some(["sh", "-c", script])
  {
    assert forall c <- "sh" :: IsPlain(c);
    assert forall c <- "-c" :: IsPlain(c);
    assert ShellWords("sh") == Some(["sh"]) by {
      ScanPlain([], Between, "sh");
      assert "" + "sh" == "sh" && [] + ["sh"] == ["sh"];
    }
    hide ShellWords, IsPlain, QuoteShellArg;
    AppendPlain("sh", "-c");
    AppendQuoted("sh" + " " + "-c", script);
    assert ["sh"] + ["-c"] + [script] == ["sh", "-c", script];
  }
}
