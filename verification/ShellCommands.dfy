/**
 Running a command in a working directory (commands.ts), read back by the quoting and
 token rules of sections 2.2.1, 2.2.2 and 2.3 of the POSIX.1-2017 Shell Command Language.
 */
module ShellCommands {
  import opened Wrappers

  // ----- Rendering ----------------------------------------------------------------

  /** `value.replaceAll("'", "'\\''")`. */
  function QuotesReplaced(value: string): string {
    if value == "" then ""
    else (if value[0] == '\'' then "'\\''" else [value[0]]) + QuotesReplaced(value[1..])
  }

  function ShellQuote(value: string): string {
    "'" + QuotesReplaced(value) + "'"
  }

  /** `command.map(shellQuote).join(" ")`. */
  function QuotedWords(command: seq<string>): string {
    if command == [] then ""
    else if |command| == 1 then ShellQuote(command[0])
    else ShellQuote(command[0]) + " " + QuotedWords(command[1..])
  }

  function ShellLine(cwd: string, command: seq<string>): string {
    "cd " + ShellQuote(cwd) + " && exec " + QuotedWords(command)
  }

  function CommandForWorkingDirectory(command: seq<string>, cwd: Option<string>): seq<string> {
    if cwd.None? then command else ["/bin/sh", "-lc", ShellLine(cwd.value, command)]
  }

  // ----- The shell's reading ---------------------------------------------------------

  datatype Token = Word(text: string) | AndIf

  datatype Mode = Between | InWord(text: string) | InQuotes(text: string)

  /** The characters that section 2.2 says may have to be quoted to stand for themselves. */
  predicate MayNeedQuoting(c: char) {
    c in "|&;<>()$`\\\"' \t\n*?[#~=%"
  }

  function Finished(mode: Mode): seq<Token> {
    if mode.InWord? then [Word(mode.text)] else []
  }

  function TextOf(mode: Mode): string {
    if mode.Between? then "" else mode.text
  }

  function Before(tokens: seq<Token>, rest: Option<seq<Token>>): Option<seq<Token>> {
    if rest.None? then None else Some(tokens + rest.value)
  }

  /** The tokens of a line; none when a quote is left open or a character has some other meaning. */
  function Scan(s: string, mode: Mode): Option<seq<Token>> {
    if mode.InQuotes? then
      if s == "" then None
      else Scan(s[1..], if s[0] == '\'' then InWord(mode.text) else InQuotes(mode.text + [s[0]]))
    else if s == "" then Some(Finished(mode))
    else if s[0] == '\'' then Scan(s[1..], InQuotes(TextOf(mode)))
    else if s[0] == '\\' then
      if |s| == 1 then None
      else if s[1] == '\n' then Scan(s[2..], mode)
      else Scan(s[2..], InWord(TextOf(mode) + [s[1]]))
    else if s[0] == ' ' || s[0] == '\t' then Before(Finished(mode), Scan(s[1..], Between))
    else if s[0] == '&' then
      if |s| > 1 && s[1] == '&' then Before(Finished(mode) + [AndIf], Scan(s[2..], Between)) else None
    else if MayNeedQuoting(s[0]) then None
    else Scan(s[1..], InWord(TextOf(mode) + [s[0]]))
  }

  function Tokenize(line: string): Option<seq<Token>> { Scan(line, Between) }

  // ----- Reading undoes rendering ------------------------------------------------------

  /** One step of reading. */
  lemma OneStep(c: char, mode: Mode, rest: string)
    ensures mode.InQuotes? && c == '\'' ==> Scan([c] + rest, mode) == Scan(rest, InWord(mode.text))
    ensures mode.InQuotes? && c != '\'' ==> Scan([c] + rest, mode) == Scan(rest, InQuotes(mode.text + [c]))
    ensures !mode.InQuotes? && c == '\'' ==> Scan([c] + rest, mode) == Scan(rest, InQuotes(TextOf(mode)))
    ensures !mode.InQuotes? && c == ' ' ==> Scan([c] + rest, mode) == Before(Finished(mode), Scan(rest, Between))
    ensures !mode.InQuotes? && !MayNeedQuoting(c) ==> Scan([c] + rest, mode) == Scan(rest, InWord(TextOf(mode) + [c]))
  {
  }

  lemma TwoSteps(c: char, mode: Mode, rest: string)
    requires !mode.InQuotes?
    ensures c != '\n' ==> Scan(['\\', c] + rest, mode) == Scan(rest, InWord(TextOf(mode) + [c]))
    ensures Scan("&&" + rest, mode) == Before(Finished(mode) + [AndIf], Scan(rest, Between))
  {
  }

  lemma {:induction false} ReplacedQuotesScan(value: string, text: string, rest: string)
    ensures Scan(QuotesReplaced(value) + ("'" + rest), InQuotes(text)) == Scan(rest, InWord(text + value))
  {
    hide Scan;
    if value == "" {
      OneStep('\'', InQuotes(text), rest);
      assert QuotesReplaced(value) + ("'" + rest) == ['\''] + rest && text + value == text;
    } else {
      var c, tail := value[0], QuotesReplaced(value[1..]) + ("'" + rest);
      ReplacedQuotesScan(value[1..], text + [c], rest);
      assert text + [c] + value[1..] == text + value;
      if c == '\'' {
        EscapedQuoteScans(text, tail);
        assert QuotesReplaced(value) + ("'" + rest) == "'\\''" + tail;
      } else {
        OneStep(c, InQuotes(text), tail);
        assert QuotesReplaced(value) + ("'" + rest) == [c] + tail;
      }
    }
  }

  lemma {:induction false} EscapedQuoteScans(text: string, tail: string)
    ensures Scan("'\\''" + tail, InQuotes(text)) == Scan(tail, InQuotes(text + "'"))
  {
    hide Scan;
    OneStep('\'', InQuotes(text), "\\''" + tail);
    TwoSteps('\'', InWord(text), "'" + tail);
    OneStep('\'', InWord(text + "'"), tail);
    assert "'\\''" + tail == ['\''] + ("\\''" + tail);
    assert "\\''" + tail == ['\\', '\''] + ("'" + tail);
  }

  /** A quoted value adds exactly itself to the word being read, whatever it contains. */
  lemma {:induction false} QuotedScans(value: string, mode: Mode, rest: string)
    requires !mode.InQuotes?
    ensures Scan(ShellQuote(value) + rest, mode) == Scan(rest, InWord(TextOf(mode) + value))
  {
    hide Scan;
    var inside := QuotesReplaced(value) + ("'" + rest);
    assert ShellQuote(value) + rest == ['\''] + inside;
    OneStep('\'', mode, inside);
    ReplacedQuotesScan(value, TextOf(mode), rest);
  }

  lemma {:induction false} PlainScans(word: string, mode: Mode, rest: string)
    requires !mode.InQuotes? && word != "" && forall c <- word :: !MayNeedQuoting(c)
    ensures Scan(word + rest, mode) == Scan(rest, InWord(TextOf(mode) + word))
  {
    hide Scan, MayNeedQuoting;
    var text := TextOf(mode) + [word[0]];
    OneStep(word[0], mode, word[1..] + rest);
    assert word + rest == [word[0]] + (word[1..] + rest);
    if |word| == 1 {
      assert word[1..] + rest == rest && text == TextOf(mode) + word;
    } else {
      PlainScans(word[1..], InWord(text), rest);
      assert text + word[1..] == TextOf(mode) + word;
    }
  }

  function Words(command: seq<string>): seq<Token> {
    seq(|command|, i requires 0 <= i < |command| => Word(command[i]))
  }

  /** A word and the blank after it. */
  lemma {:induction false} WordEnds(word: string, rest: string)
    ensures Scan(" " + rest, InWord(word)) == Before([Word(word)], Scan(rest, Between))
  {
  }

  lemma {:induction false} QuotedWordsScan(command: seq<string>)
    ensures Scan(QuotedWords(command), Between) == Some(Words(command))
  {
    if command == [] {
    } else if |command| == 1 {
      QuotedScans(command[0], Between, "");
      assert QuotedWords(command) == ShellQuote(command[0]) + "";
      assert "" + command[0] == command[0];
      assert Words(command) == [Word(command[0])];
    } else {
      hide Scan;
      var rest := QuotedWords(command[1..]);
      QuotedScans(command[0], Between, " " + rest);
      assert QuotedWords(command) == ShellQuote(command[0]) + (" " + rest);
      assert "" + command[0] == command[0];
      WordEnds(command[0], rest);
      QuotedWordsScan(command[1..]);
      assert Words(command) == [Word(command[0])] + Words(command[1..]);
    }
  }

  /** `cd` and the directory. */
  lemma {:induction false} DirectoryScans(cwd: string, rest: string)
    ensures Scan("cd" + (" " + (ShellQuote(cwd) + (" " + rest))), Between)
         == Before([Word("cd")], Before([Word(cwd)], Scan(rest, Between)))
  {
    hide Scan, ShellQuote, MayNeedQuoting;
    var go := ShellQuote(cwd) + (" " + rest);
    PlainStart("cd", go);
    QuotedScans(cwd, Between, " " + rest);
    WordEnds(cwd, rest);
    assert "" + cwd == cwd;
  }

  /** A plain word and the blank after it, where no word has begun. */
  lemma {:induction false} PlainStart(word: string, rest: string)
    requires word == "cd" || word == "exec"
    ensures Scan(word + (" " + rest), Between) == Before([Word(word)], Scan(rest, Between))
  {
    assert forall c <- word :: !MayNeedQuoting(c);
    hide Scan, MayNeedQuoting;
    PlainScans(word, Between, " " + rest);
    WordEnds(word, rest);
    assert "" + word == word;
  }

  /** `&&` and the blank after it. */
  lemma {:induction false} AndIfScans(rest: string)
    ensures Scan("&&" + (" " + rest), Between) == Before([AndIf], Scan(rest, Between))
  {
    hide Scan;
    TwoSteps(' ', Between, " " + rest);
    OneStep(' ', Between, rest);
    assert " " + rest == [' '] + rest;
    BeforeBefore(Finished(Between) + [AndIf], Finished(Between), Scan(rest, Between));
    assert Finished(Between) + [AndIf] + Finished(Between) == [AndIf];
  }

  lemma BeforeBefore(a: seq<Token>, b: seq<Token>, rest: Option<seq<Token>>)
    ensures Before(a, Before(b, rest)) == Before(a + b, rest)
  {
    if rest.Some? {
      assert a + (b + rest.value) == a + b + rest.value;
    }
  }

  /** The shell reads `cd`, exactly this directory, and `exec` with exactly this command as its words. */
  lemma {:induction false} ShellReadsTheCommand(cwd: string, command: seq<string>)
    ensures var argv := CommandForWorkingDirectory(command, Some(cwd));
      && |argv| == 3 && argv[..2] == ["/bin/sh", "-lc"]
      && Tokenize(argv[2]) == Some([Word("cd"), Word(cwd), AndIf, Word("exec")] + Words(command))
    ensures CommandForWorkingDirectory(command, None) == command
  {
    hide Scan, ShellQuote, QuotedWords, Words;
    var words := QuotedWords(command);
    var run := "exec" + (" " + words);
    var both := "&&" + (" " + run);
    assert ShellLine(cwd, command) == "cd" + (" " + (ShellQuote(cwd) + (" " + both)));
    DirectoryScans(cwd, both);
    AndIfScans(run);
    PlainStart("exec", words);
    QuotedWordsScan(command);
    BeforeBefore([Word("cd")], [Word(cwd)], Scan(both, Between));
    BeforeBefore([AndIf], [Word("exec")], Some(Words(command)));
    assert [Word("cd")] + [Word(cwd)] + ([AndIf] + [Word("exec")] + Words(command))
        == [Word("cd"), Word(cwd), AndIf, Word("exec")] + Words(command);
  }

  /** No two commands, and no two directories, are rendered alike. */
  lemma {:induction false} RenderingIsInjective(cwd: string, command: seq<string>, cwd': string, command': seq<string>)
    requires CommandForWorkingDirectory(command, Some(cwd)) == CommandForWorkingDirectory(command', Some(cwd'))
    ensures cwd == cwd' && command == command'
  {
    ShellReadsTheCommand(cwd, command);
    ShellReadsTheCommand(cwd', command');
    var prefix := [Word("cd"), Word(cwd), AndIf, Word("exec")];
    var prefix' := [Word("cd"), Word(cwd'), AndIf, Word("exec")];
    assert (prefix + Words(command))[..4] == prefix && (prefix' + Words(command'))[..4] == prefix';
    assert prefix[1] == prefix'[1];
    assert (prefix + Words(command))[4..] == Words(command);
    assert (prefix' + Words(command'))[4..] == Words(command');
    forall i | 0 <= i < |command| ensures i < |command'| && command[i] == command'[i] {
      assert Words(command)[i] == Words(command')[i];
    }
  }
}
