/**
 The shell command printer (src/environments/daytona/index.ts), against a reader of section 2.2 (Quoting) of the
 POSIX.1-2017 Shell Command Language.
 */
module Quoting {
  import opened Text

  const POSIX_SHELL: string := "/bin/sh"

  /** Single-quoted, with each quote inside written as `'\''`. */
  function QuoteSh(value: string): string {
    "'" + Escaped(value) + "'"
  }

  function Escaped(value: string): string {
    if value == "" then "" else (if value[0] == '\'' then "'\\''" else [value[0]]) + Escaped(value[1..])
  }

  function ShellCommand(command: string): string {
    POSIX_SHELL + " -lc " + QuoteSh(command)
  }

  function Script(command: string, cwd: string): string {
    "cd " + QuoteSh(cwd) + " && " + command
  }

  function CommandInCwd(command: string, cwd: string): string {
    ShellCommand(Script(command, cwd))
  }

  // ----- The shell's reader -----

  datatype Token = Word(text: string) | And

  /** `Stuck`: a character that this reader gives no meaning to, or one that no command line can hold. */
  datatype Mode = Plain | Single | Double | Escape | DoubleEscape | Ampersand | Stuck

  /** What was read before the current word, and the current word if one has begun. */
  datatype Reader = Reader(tokens: seq<Token>, word: Option<string>, mode: Mode)

  const START := Reader([], None, Plain)

  /** Unquoted, these begin or end something other than a word. */
  predicate Special(c: char) {
    c == '|' || c == ';' || c == '<' || c == '>' || c == '(' || c == ')' || c == '$' || c == '`' || c == '\n'
    || c == '*' || c == '?' || c == '[' || c == '#' || c == '~' || c == '=' || c == '%'
  }

  function Begun(word: Option<string>): string {
    if word.Some? then word.value else ""
  }

  function Close(r: Reader): seq<Token> {
    if r.word.Some? then r.tokens + [Word(r.word.value)] else r.tokens
  }

  function Put(r: Reader, text: string, mode: Mode): Reader {
    Reader(r.tokens, Some(Begun(r.word) + text), mode)
  }

  function NextPlain(r: Reader, c: char): Reader {
    if c == ' ' || c == '\t' then Reader(Close(r), None, Plain)
    else if c == '\'' then Put(r, "", Single)
    else if c == '"' then Put(r, "", Double)
    else if c == '\\' then r.(mode := Escape)
    else if c == '&' then Reader(Close(r), None, Ampersand)
    else if Special(c) then r.(mode := Stuck)
    else Put(r, [c], Plain)
  }

  function Next(r: Reader, c: char): Reader {
    if c == '\0' then r.(mode := Stuck)
    else match r.mode
      case Plain => NextPlain(r, c)
      case Single => if c == '\'' then r.(mode := Plain) else Put(r, [c], Single)
      case Double =>
        if c == '"' then r.(mode := Plain)
        else if c == '\\' then r.(mode := DoubleEscape)
        else if c == '$' || c == '`' then r.(mode := Stuck)
        else Put(r, [c], Double)
      case Escape => if c == '\n' then r.(mode := Plain) else Put(r, [c], Plain)
      case DoubleEscape =>
        if c == '\n' then r.(mode := Double)
        else if c == '$' || c == '`' || c == '"' || c == '\\' then Put(r, [c], Double)
        else Put(r, "\\" + [c], Double)
      case Ampersand => if c == '&' then Reader(r.tokens + [And], None, Plain) else r.(mode := Stuck)
      case Stuck => r
  }

  function Lex(r: Reader, s: string): Reader {
    if s == "" then r else Next(Lex(r, s[..|s| - 1]), s[|s| - 1])
  }

  /** The tokens of a whole command line, if the reader understands all of it and every quote is closed. */
  function Tokens(s: string): Option<seq<Token>> {
    var r := Lex(START, s);
    if r.mode.Plain? then Some(Close(r)) else None
  }

  lemma {:induction false} LexAppend(r: Reader, a: string, b: string)
    ensures Lex(r, a + b) == Lex(Lex(r, a), b)
  {
    if b == "" {
      assert a + b == a;
    } else {
      LexAppend(r, a, b[..|b| - 1]);
      assert (a + b)[..|a + b| - 1] == a + b[..|b| - 1];
    }
  }

  // ----- The reader's other quotes -----

  lemma LexTwo(r: Reader, a: char, b: char)
    ensures Lex(r, [a, b]) == Next(Next(r, a), b)
  {
    var two: string := [a, b];
    var one: string := [a];
    assert two[..1] == one && one[..0] == "";
    assert Lex(r, one) == Next(Lex(r, ""), a) && Lex(r, two) == Next(Lex(r, one), b);
  }

  /** Section 2.2.1, and inside double quotes 2.2.3: what a backslash and the character after it stand for. */
  lemma BackslashReads(r: Reader, c: char)
    requires c != '\0'
    ensures r.mode.Plain? ==> Lex(r, ['\\', c]) == if c == '\n' then r else Put(r, [c], Plain)
    ensures r.mode.Double? ==>
              Lex(r, ['\\', c]) ==
                if c == '\n' then r
                else if c in {'$', '`', '"', '\\'} then Put(r, [c], Double)
                else Put(r, ['\\', c], Double)
  {
    LexTwo(r, '\\', c);
    assert "\\" + [c] == ['\\', c];
  }

  lemma {:induction false} InsideDouble(r: Reader, value: string)
    requires r.mode.Double? && r.word.Some?
    requires forall c | c in value :: c !in {'"', '\\', '$', '`', '\0'}
    ensures Lex(r, value) == Put(r, value, Double)
  {
    if value == "" {
      assert Begun(r.word) + "" == Begun(r.word);
    } else {
      var front, c := value[..|value| - 1], value[|value| - 1];
      assert front + [c] == value && c in value && forall d | d in front :: d in value;
      InsideDouble(r, front);
      AppendAssociates(Begun(r.word), front, [c]);
    }
  }

  /** Section 2.2.3: between double quotes, text without special characters is itself. */
  lemma DoubleQuotesRead(r: Reader, value: string)
    requires r.mode.Plain? && forall c | c in value :: c !in {'"', '\\', '$', '`', '\0'}
    ensures Lex(r, "\"" + value + "\"") == Put(r, value, Plain)
  {
    var begun := Put(r, "", Double);
    assert "\""[..0] == "" && Lex(r, "\"") == Next(r, '"') == begun;
    LexAppend(r, "\"", value);
    LexAppend(r, "\"" + value, "\"");
    InsideDouble(begun, value);
    assert Begun(r.word) + "" == Begun(r.word);
    assert Lex(Put(r, value, Double), "\"") == Next(Put(r, value, Double), '"');
  }

  lemma LexOne(r: Reader, c: char)
    ensures Lex(r, [c]) == Next(r, c)
  {
    assert [c][..0] == "";
  }

  lemma LexCons(r: Reader, c: char, s: string)
    ensures Lex(r, [c] + s) == Lex(Next(r, c), s)
  {
    LexAppend(r, [c], s);
    LexOne(r, c);
  }

  // ----- Quoting -----

  /** `'\''`, read inside single quotes, is one quote character of the word. */
  lemma QuoteInside(r: Reader, s: string)
    requires r.mode.Single? && r.word.Some?
    ensures Lex(r, "'\\''" + s) == Lex(Put(r, "'", Single), s)
  {
    assert "'\\''" + s == ['\''] + (['\\'] + (['\''] + (['\''] + s)));
    LexCons(r, '\'', ['\\'] + (['\''] + (['\''] + s)));
    var r1 := Next(r, '\'');
    LexCons(r1, '\\', ['\''] + (['\''] + s));
    var r2 := Next(r1, '\\');
    LexCons(r2, '\'', ['\''] + s);
    var r3 := Next(r2, '\'');
    LexCons(r3, '\'', s);
    assert r3.word.value + "" == r3.word.value;
  }

  lemma {:induction false} EscapedIsRead(r: Reader, v: string)
    requires r.mode.Single? && r.word.Some? && '\0' !in v
    ensures Lex(r, Escaped(v)) == Put(r, v, Single)
    decreases |v|
  {
    if v == "" {
      assert r.word.value + "" == r.word.value;
    } else {
      assert v == [v[0]] + v[1..];
      AppendAssociates(r.word.value, [v[0]], v[1..]);
      if v[0] == '\'' {
        QuoteInside(r, Escaped(v[1..]));
        assert [v[0]] == "'";
        EscapedIsRead(Put(r, "'", Single), v[1..]);
      } else {
        LexCons(r, v[0], Escaped(v[1..]));
        EscapedIsRead(Put(r, [v[0]], Single), v[1..]);
      }
    }
  }

  lemma QuoteShape(v: string)
    ensures QuoteSh(v) == ['\''] + (Escaped(v) + ['\''])
  {
    assert "'" == ['\''];
  }

  /** A quoted value extends the word being read by exactly that value. */
  lemma QuotedExtendsWord(r: Reader, v: string)
    requires r.mode.Plain? && '\0' !in v
    ensures Lex(r, QuoteSh(v)) == Put(r, v, Plain)
  {
    var within := Next(r, '\'');
    assert within == NextPlain(r, '\'') == Put(r, "", Single);
    QuoteShape(v);
    LexCons(r, '\'', Escaped(v) + ['\'']);
    LexAppend(within, Escaped(v), ['\'']);
    EscapedIsRead(within, v);
    LexOne(Put(within, v, Single), '\'');
    assert Begun(within.word) == Begun(r.word);
  }

  lemma {:induction false} NulIsEscaped(v: string)
    ensures '\0' in Escaped(v) <==> '\0' in v
  {
    if v != "" {
      NulIsEscaped(v[1..]);
      assert v == [v[0]] + v[1..];
      assert Escaped(v) == (if v[0] == '\'' then "'\\''" else [v[0]]) + Escaped(v[1..]);
    }
  }

  lemma {:induction false} NulSticks(r: Reader, s: string)
    requires '\0' in s
    ensures Lex(r, s).mode.Stuck?
  {
    if s[|s| - 1] != '\0' {
      assert '\0' in s[..|s| - 1];
      NulSticks(r, s[..|s| - 1]);
    }
  }

  /** The shell reads a quoted value as one word equal to it, exactly when the value has no NUL. */
  lemma QuotedIsOneWord(v: string)
    ensures Tokens(QuoteSh(v)) == Some([Word(v)]) <==> '\0' !in v
  {
    if '\0' in v {
      NulIsEscaped(v);
      QuoteShape(v);
      NulSticks(START, QuoteSh(v));
    } else {
      QuotedExtendsWord(START, v);
      assert "" + v == v;
      assert Close(Put(START, v, Plain)) == [Word(v)];
    }
  }

  // ----- Commands -----

  /** Unquoted, it just adds to a word. */
  predicate Ordinary(c: char) {
    c != ' ' && c != '\t' && c != '\'' && c != '"' && c != '\\' && c != '&' && c != '\0' && !Special(c)
  }

  predicate OrdinaryWord(w: string) {
    w != "" && forall c | c in w :: Ordinary(c)
  }

  lemma OrdinaryAdds(r: Reader, c: char)
    requires r.mode.Plain? && Ordinary(c)
    ensures Next(r, c) == Put(r, [c], Plain)
  {
  }

  lemma {:induction false} OrdinaryIsRead(r: Reader, s: string)
    requires r.mode.Plain? && OrdinaryWord(s)
    ensures Lex(r, s) == Put(r, s, Plain)
  {
    var front, last := s[..|s| - 1], s[|s| - 1];
    assert last in s;
    assert s == front + [last];
    if front == "" {
      OrdinaryAdds(r, last);
      assert s == [last];
    } else {
      assert forall c | c in front :: c in s;
      OrdinaryIsRead(r, front);
      OrdinaryAdds(Put(r, front, Plain), last);
      AppendAssociates(Begun(r.word), front, [last]);
    }
  }

  /** An ordinary word and the blank after it. */
  lemma WordIsRead(r: Reader, w: string, more: string)
    requires r.mode.Plain? && r.word.None? && OrdinaryWord(w)
    ensures Lex(r, w + " " + more) == Lex(Reader(r.tokens + [Word(w)], None, Plain), more)
  {
    OrdinaryIsRead(r, w);
    assert "" + w == w;
    LexAppend(r, w, " ");
    LexAppend(r, w + " ", more);
    LexOne(Put(r, w, Plain), ' ');
  }

  lemma TwoWords(a: string, b: string, more: string)
    requires OrdinaryWord(a) && OrdinaryWord(b)
    ensures Lex(START, a + " " + (b + " " + more)) == Lex(Reader([Word(a), Word(b)], None, Plain), more)
  {
    WordIsRead(START, a, b + " " + more);
    WordIsRead(Reader([] + [Word(a)], None, Plain), b, more);
    assert [] + [Word(a)] + [Word(b)] == [Word(a), Word(b)];
  }

  lemma ShellShape(script: string)
    ensures ShellCommand(script) == POSIX_SHELL + " " + ("-lc" + " " + QuoteSh(script))
  {
    var quoted := QuoteSh(script);
    assert " -lc " == " " + ("-lc" + " ");
    AppendAssociates(" ", "-lc" + " ", quoted);
    AppendAssociates(POSIX_SHELL, " " + ("-lc" + " "), quoted);
    AppendAssociates(POSIX_SHELL, " ", "-lc" + " " + quoted);
  }

  lemma QuotedLast(tokens: seq<Token>, v: string)
    ensures Lex(Reader(tokens, None, Plain), QuoteSh(v)) == Reader(tokens, Some(v), Plain)
            || ('\0' in v && Lex(Reader(tokens, None, Plain), QuoteSh(v)).mode.Stuck?)
  {
    if '\0' in v {
      NulIsEscaped(v);
      QuoteShape(v);
      NulSticks(Reader(tokens, None, Plain), QuoteSh(v));
    } else {
      QuotedExtendsWord(Reader(tokens, None, Plain), v);
      assert "" + v == v;
    }
  }

  lemma ThreeWords(a: string, b: string, v: string)
    requires OrdinaryWord(a) && OrdinaryWord(b)
    ensures Tokens(a + " " + (b + " " + QuoteSh(v))) == Some([Word(a), Word(b), Word(v)]) <==> '\0' !in v
  {
    TwoWords(a, b, QuoteSh(v));
    QuotedLast([Word(a), Word(b)], v);
    assert [Word(a), Word(b)] + [Word(v)] == [Word(a), Word(b), Word(v)];
    if '\0' in v {
      NulIsEscaped(v);
      QuoteShape(v);
      NulSticks(Reader([Word(a), Word(b)], None, Plain), QuoteSh(v));
    }
  }

  lemma ShellWords()
    ensures OrdinaryWord(POSIX_SHELL) && OrdinaryWord("-lc")
  {
  }

  /** The command given to the sandbox is three words, the last of them the script as it was. */
  lemma ShellCommandIsThreeWords(script: string)
    ensures Tokens(ShellCommand(script)) == Some([Word(POSIX_SHELL), Word("-lc"), Word(script)]) <==> '\0' !in script
  {
    var shell, flag := POSIX_SHELL, "-lc";
    ShellShape(script);
    ShellWords();
    ThreeWords(shell, flag, script);
  }

  lemma OneWordThenQuoted(a: string, v: string, command: string)
    requires OrdinaryWord(a) && '\0' !in v
    ensures Lex(START, a + " " + (QuoteSh(v) + (" " + ("&&" + command))))
            == Lex(Reader([Word(a), Word(v), And], None, Plain), command)
  {
    var more := " " + ("&&" + command);
    var r := Reader([] + [Word(a)], None, Plain);
    WordIsRead(START, a, QuoteSh(v) + more);
    LexAppend(r, QuoteSh(v), more);
    QuotedLast(r.tokens, v);
    QuotedExtendsWord(r, v);
    assert "" + v == v;
    AndIsRead(Reader(r.tokens, Some(v), Plain), command);
    assert [] + [Word(a)] + [Word(v)] + [And] == [Word(a), Word(v), And];
  }

  lemma ScriptShape(command: string, cwd: string)
    ensures Script(command, cwd) == "cd" + " " + (QuoteSh(cwd) + (" " + ("&&" + (" " + command))))
  {
    var quoted := QuoteSh(cwd);
    assert "cd " == "cd" + " " && " && " == " " + ("&&" + " ");
    AppendAssociates("&&", " ", command);
    AppendAssociates(" ", "&&" + " ", command);
    AppendAssociates(quoted, " && ", command);
    AppendAssociates("cd ", quoted, " && " + command);
    AppendAssociates("cd ", quoted + " && ", command);
    AppendAssociates("cd ", quoted, " && ");
  }

  /**
   The script begins, whatever the command after it, with the words `cd` and the directory and with `&&`; the
   reader then meets the command untouched, at the start of a new word.
   */
  lemma ScriptEntersDirectory(command: string, cwd: string)
    requires '\0' !in cwd
    ensures Lex(START, Script(command, cwd)) == Lex(Reader([Word("cd"), Word(cwd), And], None, Plain), " " + command)
  {
    ScriptShape(command, cwd);
    OneWordThenQuoted("cd", cwd, " " + command);
  }

  lemma AndIsRead(r: Reader, more: string)
    requires r.mode.Plain? && r.word.Some?
    ensures Lex(r, " " + ("&&" + more)) == Lex(Reader(r.tokens + [Word(r.word.value)] + [And], None, Plain), more)
  {
    var text := "&&" + more;
    assert " " + text == [' '] + text;
    LexCons(r, ' ', text);
    var r1 := Reader(r.tokens + [Word(r.word.value)], None, Plain);
    assert text == ['&'] + (['&'] + more);
    LexCons(r1, '&', ['&'] + more);
    LexCons(Reader(r1.tokens, None, Ampersand), '&', more);
  }

  lemma ScriptNulFree(command: string, cwd: string)
    requires '\0' !in command && '\0' !in cwd
    ensures '\0' !in Script(command, cwd)
  {
    NulIsEscaped(cwd);
    QuoteShape(cwd);
  }

  /** Both levels of quoting together. */
  lemma CommandRunsInDirectory(command: string, cwd: string)
    requires '\0' !in command && '\0' !in cwd
    ensures Tokens(CommandInCwd(command, cwd)) == Some([Word(POSIX_SHELL), Word("-lc"), Word(Script(command, cwd))])
    ensures Lex(START, Script(command, cwd)) == Lex(Reader([Word("cd"), Word(cwd), And], None, Plain), " " + command)
  {
    ScriptNulFree(command, cwd);
    ShellCommandIsThreeWords(Script(command, cwd));
    ScriptEntersDirectory(command, cwd);
  }
}
