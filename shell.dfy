/** The desktop shell's script launcher: a script name is checked, each command-line argument
    is wrapped in single quotes for bash (an embedded quote becomes '\''), and the launch
    command for the fixed WSL working directory is assembled. A small model of how bash splits
    such a command line into words states what the quoting achieves. */
module Shell {
  import opened Wrappers
  import opened Text

  /** The WSL directory the scripts run in. */
  const WslPath: string := "/mnt/c/Users/User/Documents/sample_script"

  const InvalidScriptName: string := "Invalid script name."

  /** The command text that precedes the script name. */
  const CommandPrefix: string := "cd '" + WslPath + "' && pipenv run python "

  /** A script name is accepted when it ends in ".py" and contains no path separator. */
  predicate IsValidScriptName(script: string) {
    EndsWith(script, ".py") && '/' !in script && '\\' !in script
  }

  /** Every single quote replaced by quote, backslash, quote, quote. */
  function EscapeQuotes(s: string): string
    decreases |s|
  {
    if s == [] then ""
    else (if s[0] == '\'' then "'\\''" else [s[0]]) + EscapeQuotes(s[1..])
  }

  /** One argument as a single-quoted bash word. */
  function QuoteArgument(arg: string): (r: string)
    ensures |r| >= 2 && r[0] == '\'' && r[|r| - 1] == '\''
  {
    "'" + EscapeQuotes(arg) + "'"
  }

  function QuoteAll(args: seq<string>): seq<string>
    decreases |args|
  {
    if args == [] then [] else [QuoteArgument(args[0])] + QuoteAll(args[1..])
  }

  /** The quoted arguments, in order, separated by single spaces. */
  function QuotedArguments(args: seq<string>): (r: string)
    ensures r == "" <==> args == []
    ensures args != [] ==> r[0] == '\''
  {
    Join(QuoteAll(args), " ")
  }

  /** The command run for `script` with `args`, or the error for a rejected script name; the
      script name goes into the command as it is. */
  function PythonCommand(script: string, args: seq<string>): (r: Result<string, string>)
    ensures r.Err? <==> !IsValidScriptName(script)
    ensures r.Err? ==> r.error == InvalidScriptName
  {
    if !IsValidScriptName(script) then Err(InvalidScriptName)
    else Ok(CommandPrefix + script + " " + QuotedArguments(args))
  }

  /** Characters bash treats as word separators inside a command, outside quotes: space and
      tab. (An unquoted newline ends the command instead, see IsOperator.) */
  predicate IsBlank(c: char) {
    c == ' ' || c == '\t'
  }

  /** Characters that, unquoted and even in the middle of a word, stop bash from reading the
      word literally: a newline, `;`, `&` and `|` end the command, `<` and `>` redirect, `(`
      and `)` are a subshell or a syntax error, the backquote starts a command substitution,
      and a double quote starts quoting. */
  predicate IsOperator(c: char) {
    c == '\n' || c in "|&;()<>`\""
  }

  /** Characters outside the modelled fragment of bash: the operators, and the characters
      that bash may expand or treat as a comment depending on their position, on the next
      character or on the files present (`$`, globs, braces, tilde, history, `#`). */
  predicate IsSpecial(c: char) {
    IsOperator(c) || c in "$*?[]#~{}!"
  }

  /** Bash word splitting restricted to blanks, single quotes and backslash escapes: `cur` is
      the word being built, `inWord` whether one has been started, `acc` the finished words.
      A backslash before a newline is a line continuation and is removed. An unterminated
      quote or a trailing backslash is a syntax error, and an unquoted special character puts
      the text outside one simple command of literal words; all give None. */
  function Lex(s: string, cur: string, inWord: bool, acc: seq<string>): Option<seq<string>>
    decreases |s|
  {
    if s == [] then Some(if inWord then acc + [cur] else acc)
    else if IsBlank(s[0]) then Lex(s[1..], "", false, if inWord then acc + [cur] else acc)
    else if s[0] == '\'' then Quoted(s[1..], cur, acc)
    else if s[0] == '\\' then
      (if |s| < 2 then None
       else if s[1] == '\n' then Lex(s[2..], cur, inWord, acc)
       else Lex(s[2..], cur + [s[1]], true, acc))
    else if IsSpecial(s[0]) then None
    else Lex(s[1..], cur + [s[0]], true, acc)
  }

  /** Inside single quotes every character is literal up to the closing quote. */
  function Quoted(s: string, cur: string, acc: seq<string>): Option<seq<string>>
    decreases |s|
  {
    if s == [] then None
    else if s[0] == '\'' then Lex(s[1..], cur, true, acc)
    else Quoted(s[1..], cur + [s[0]], acc)
  }

  /** The words bash reads from `s`. */
  function Words(s: string): Option<seq<string>> {
    Lex(s, "", false, [])
  }

  /** Each quote costs three more characters, and the wrapping quotes two. */
  lemma {:induction false} EscapeQuotesLength(s: string)
    ensures |EscapeQuotes(s)| == |s| + 3 * Count(s, '\'')
    decreases |s|
  {
    if s != [] {
      EscapeQuotesLength(s[1..]);
    }
  }

  /** Escaping works piece by piece: it distributes over concatenation. */
  lemma {:induction false} EscapeQuotesConcat(a: string, b: string)
    ensures EscapeQuotes(a + b) == EscapeQuotes(a) + EscapeQuotes(b)
    decreases |a|
  {
    if a == [] {
      assert a + b == b;
    } else {
      assert (a + b)[0] == a[0] && (a + b)[1..] == a[1..] + b;
      EscapeQuotesConcat(a[1..], b);
    }
  }

  /** Text without a quote is left as it is. */
  lemma {:induction false} EscapeQuotesPlain(s: string)
    requires '\'' !in s
    ensures EscapeQuotes(s) == s
    decreases |s|
  {
    if s != [] {
      assert s[0] != '\'';
      assert '\'' !in s[1..] by {
        forall i | 0 <= i < |s[1..]| ensures s[1..][i] != '\'' {
          assert s[1..][i] == s[i + 1];
        }
      }
      EscapeQuotesPlain(s[1..]);
      assert [s[0]] + s[1..] == s;
    }
  }

  /** A lone quote becomes quote, backslash, quote, quote. */
  lemma EscapeQuote()
    ensures EscapeQuotes("'") == "'\\''"
  {
    assert "'"[1..] == [];
    assert EscapeQuotes([]) == [];
  }

  lemma QuoteArgumentLength(arg: string)
    ensures |QuoteArgument(arg)| == |arg| + 2 + 3 * Count(arg, '\'')
  {
    EscapeQuotesLength(arg);
  }

  // One step of the lexer for each kind of character.

  lemma LexBlank(c: char, t: string, cur: string, inWord: bool, acc: seq<string>)
    requires IsBlank(c)
    ensures Lex([c] + t, cur, inWord, acc) == Lex(t, "", false, if inWord then acc + [cur] else acc)
  {
    assert ([c] + t)[1..] == t;
  }

  lemma LexOpenQuote(t: string, cur: string, inWord: bool, acc: seq<string>)
    ensures Lex("'" + t, cur, inWord, acc) == Quoted(t, cur, acc)
  {
    assert ("'" + t)[1..] == t;
  }

  lemma LexEscape(c: char, t: string, cur: string, inWord: bool, acc: seq<string>)
    requires c != '\n'
    ensures Lex(['\\', c] + t, cur, inWord, acc) == Lex(t, cur + [c], true, acc)
  {
    assert (['\\', c] + t)[2..] == t;
  }

  lemma LexPlain(c: char, t: string, cur: string, inWord: bool, acc: seq<string>)
    requires !IsBlank(c) && c != '\'' && c != '\\' && !IsSpecial(c)
    ensures Lex([c] + t, cur, inWord, acc) == Lex(t, cur + [c], true, acc)
  {
    assert ([c] + t)[1..] == t;
  }

  lemma LexSpecial(c: char, t: string, cur: string, inWord: bool, acc: seq<string>)
    requires IsSpecial(c)
    ensures Lex([c] + t, cur, inWord, acc) == None
  {
    assert ([c] + t)[0] == c;
  }

  lemma QuotedClose(t: string, cur: string, acc: seq<string>)
    ensures Quoted("'" + t, cur, acc) == Lex(t, cur, true, acc)
  {
    assert ("'" + t)[1..] == t;
  }

  lemma QuotedPlain(c: char, t: string, cur: string, acc: seq<string>)
    requires c != '\''
    ensures Quoted([c] + t, cur, acc) == Quoted(t, cur + [c], acc)
  {
    assert ([c] + t)[1..] == t;
  }

  lemma EscapeQuotesCons(c: char, t: string)
    ensures EscapeQuotes([c] + t) == (if c == '\'' then "'\\''" else [c]) + EscapeQuotes(t)
  {
    assert ([c] + t)[1..] == t;
  }

  /** Reading an escaped body inside quotes, up to the closing quote, appends exactly the
      original text to the word. */
  lemma {:induction false} EscapedBody(arg: string, rest: string, cur: string, acc: seq<string>)
    ensures Quoted(EscapeQuotes(arg) + "'" + rest, cur, acc) == Lex(rest, cur + arg, true, acc)
    decreases |arg|
  {
    if arg == [] {
      assert EscapeQuotes(arg) + "'" + rest == "'" + rest;
      QuotedClose(rest, cur, acc);
      assert cur + arg == cur;
    } else {
      EscapedBody(arg[1..], rest, cur + [arg[0]], acc);
      EscapedStep(arg[0], arg[1..], rest, cur, acc);
      assert [arg[0]] + arg[1..] == arg;
      assert cur + [arg[0]] + arg[1..] == cur + arg;
    }
  }

  /** One character of the escaped body: a quote is read as quote, escaped quote, quote. */
  lemma EscapedStep(c: char, t: string, rest: string, cur: string, acc: seq<string>)
    requires Quoted(EscapeQuotes(t) + "'" + rest, cur + [c], acc) == Lex(rest, cur + [c] + t, true, acc)
    ensures Quoted(EscapeQuotes([c] + t) + "'" + rest, cur, acc) == Lex(rest, cur + [c] + t, true, acc)
  {
    var tail := EscapeQuotes(t) + "'" + rest;
    EscapeQuotesCons(c, t);
    if c == '\'' {
      assert EscapeQuotes([c] + t) + "'" + rest == "'" + (['\\', '\''] + ("'" + tail));
      QuotedClose(['\\', '\''] + ("'" + tail), cur, acc);
      LexEscape('\'', "'" + tail, cur, true, acc);
      LexOpenQuote(tail, cur + "'", true, acc);
    } else {
      assert EscapeQuotes([c] + t) + "'" + rest == [c] + tail;
      QuotedPlain(c, tail, cur, acc);
    }
  }

  /** A quoted argument read between words is read back as that argument. */
  lemma QuotedWord(arg: string, rest: string, acc: seq<string>)
    ensures Lex(QuoteArgument(arg) + rest, "", false, acc) == Lex(rest, arg, true, acc)
  {
    assert QuoteArgument(arg) + rest == "'" + (EscapeQuotes(arg) + "'" + rest);
    LexOpenQuote(EscapeQuotes(arg) + "'" + rest, "", false, acc);
    EscapedBody(arg, rest, "", acc);
    assert "" + arg == arg;
  }

  lemma {:induction false} QuotedArgumentsWords(args: seq<string>, acc: seq<string>)
    ensures Lex(QuotedArguments(args), "", false, acc) == Some(acc + args)
    decreases |args|
  {
    if args == [] {
      assert acc + args == acc;
    } else if |args| == 1 {
      QuotedWord(args[0], "", acc);
      assert QuoteArgument(args[0]) + "" == QuoteArgument(args[0]);
      assert QuoteAll(args) == [QuoteArgument(args[0])];
      assert acc + args == acc + [args[0]];
    } else {
      var restText := QuotedArguments(args[1..]);
      assert QuoteAll(args)[1..] == QuoteAll(args[1..]);
      assert QuotedArguments(args) == QuoteArgument(args[0]) + (" " + restText);
      QuotedWord(args[0], " " + restText, acc);
      LexBlank(' ', restText, args[0], true, acc);
      QuotedArgumentsWords(args[1..], acc + [args[0]]);
      assert acc + [args[0]] + args[1..] == acc + args;
    }
  }

  /** Bash reads the quoted, space-separated arguments back as exactly the original arguments,
      in order, whatever characters they contain. */
  lemma ArgumentsRoundTrip(args: seq<string>)
    ensures Words(QuotedArguments(args)) == Some(args)
  {
    QuotedArgumentsWords(args, []);
    assert [] + args == args;
  }

  /** A character bash takes literally outside quotes. */
  predicate IsPlain(c: char) {
    !IsBlank(c) && c != '\'' && c != '\\' && !IsSpecial(c)
  }

  /** Plain characters extend the current word. */
  lemma {:induction false} PlainWord(s: string, rest: string, cur: string, inWord: bool, acc: seq<string>)
    requires forall i :: 0 <= i < |s| ==> IsPlain(s[i])
    requires s != []
    ensures Lex(s + rest, cur, inWord, acc) == Lex(rest, cur + s, true, acc)
    decreases |s|
  {
    assert s + rest == [s[0]] + (s[1..] + rest);
    LexPlain(s[0], s[1..] + rest, cur, inWord, acc);
    if |s| > 1 {
      PlainWord(s[1..], rest, cur + [s[0]], true, acc);
    } else {
      assert s[1..] + rest == rest;
    }
    assert cur + [s[0]] + s[1..] == cur + s;
  }

  /** For an accepted script name made of plain characters only, the words bash reads after
      the fixed prefix are the script name followed by the arguments. */
  lemma CommandWords(script: string, args: seq<string>)
    requires IsValidScriptName(script)
    requires forall i :: 0 <= i < |script| ==> IsPlain(script[i])
    ensures PythonCommand(script, args).Ok?
    ensures var c := PythonCommand(script, args).value;
      |CommandPrefix| <= |c| && c[..|CommandPrefix|] == CommandPrefix
      && Words(c[|CommandPrefix|..]) == Some([script] + args)
  {
    var c := PythonCommand(script, args).value;
    var restText := QuotedArguments(args);
    assert c == CommandPrefix + (script + (" " + restText));
    assert c[|CommandPrefix|..] == script + (" " + restText);
    assert script != [] by {
      assert |script| >= 3;
    }
    PlainWord(script, " " + restText, "", false, []);
    assert "" + script == script;
    assert " " + restText == [' '] + restText;
    LexBlank(' ', restText, script, true, []);
    assert [] + [script] == [script];
    assert Words(c[|CommandPrefix|..]) == Lex(" " + restText, script, true, []);
    QuotedArgumentsWords(args, [script]);
    assert Words(c[|CommandPrefix|..]) == Lex(restText, "", false, [script]);
  }

  /** An accepted name whose second character is an operator is not one literal word: bash
      ends the command, redirects, expands or starts quoting there, and the model reads no
      words from the command. */
  lemma OperatorInName(script: string, args: seq<string>)
    requires IsValidScriptName(script)
    requires |script| >= 2 && IsPlain(script[0]) && IsOperator(script[1])
    ensures var c := PythonCommand(script, args);
      && c.Ok? && |CommandPrefix| <= |c.value| && c.value[..|CommandPrefix|] == CommandPrefix
      && Words(c.value[|CommandPrefix|..]) == None
  {
    var c := PythonCommand(script, args).value;
    var t := script[2..] + " " + QuotedArguments(args);
    assert c == CommandPrefix + ([script[0]] + ([script[1]] + t));
    assert c[|CommandPrefix|..] == [script[0]] + ([script[1]] + t);
    LexPlain(script[0], [script[1]] + t, "", false, []);
    LexSpecial(script[1], t, [script[0]], true, []);
  }

  /** The name check lets command separators through: with `sep` a `;` or a newline,
      "a<sep>reboot<sep>b.py" is accepted, and bash does not read what follows the prefix as
      the script name and its arguments, because the unquoted separator ends the command
      there. */
  lemma InjectedScriptName(sep: char)
    requires sep == ';' || sep == '\n'
    ensures IsValidScriptName("a" + [sep] + "reboot" + [sep] + "b.py")
    ensures var c := PythonCommand("a" + [sep] + "reboot" + [sep] + "b.py", ["x"]);
      && c.Ok? && |CommandPrefix| <= |c.value| && c.value[..|CommandPrefix|] == CommandPrefix
      && Words(c.value[|CommandPrefix|..]) == None
  {
    var stem := "a" + [sep] + "reboot" + [sep] + "b";
    var script := "a" + [sep] + "reboot" + [sep] + "b.py";
    assert script == stem + ".py";
    assert EndsWith(script, ".py") by {
      assert script[|stem|..] == ".py";
    }
    assert '/' !in script && '\\' !in script by {
      assert '/' !in stem && '\\' !in stem by {
        assert forall i :: 0 <= i < |stem| ==> stem[i] != '/' && stem[i] != '\\';
      }
    }
    assert IsPlain(script[0]) && IsOperator(script[1]);
    OperatorInName(script, ["x"]);
  }

  /** The launch command with the script name quoted like the arguments. */
  function QuotedPythonCommand(script: string, args: seq<string>): (r: Result<string, string>)
    ensures r.Err? <==> !IsValidScriptName(script)
    ensures r.Err? ==> r.error == InvalidScriptName
  {
    if !IsValidScriptName(script) then Err(InvalidScriptName)
    else Ok(CommandPrefix + QuoteArgument(script) + " " + QuotedArguments(args))
  }

  /** With the script name quoted, every name the check accepts is read by bash as one word,
      followed by exactly the arguments. */
  lemma QuotedCommandWords(script: string, args: seq<string>)
    requires IsValidScriptName(script)
    ensures QuotedPythonCommand(script, args).Ok?
    ensures var c := QuotedPythonCommand(script, args).value;
      |CommandPrefix| <= |c| && c[..|CommandPrefix|] == CommandPrefix
      && Words(c[|CommandPrefix|..]) == Some([script] + args)
  {
    var c := QuotedPythonCommand(script, args).value;
    var restText := QuotedArguments(args);
    assert c == CommandPrefix + (QuoteArgument(script) + (" " + restText));
    assert c[|CommandPrefix|..] == QuoteArgument(script) + (" " + restText);
    QuotedWord(script, " " + restText, []);
    assert " " + restText == [' '] + restText;
    LexBlank(' ', restText, script, true, []);
    assert [] + [script] == [script];
    QuotedArgumentsWords(args, [script]);
  }

  /** A rejected script name yields the error and no command. */
  lemma RejectedNames(script: string, args: seq<string>)
    ensures !EndsWith(script, ".py") ==> PythonCommand(script, args) == Err(InvalidScriptName)
    ensures '/' in script || '\\' in script ==> PythonCommand(script, args) == Err(InvalidScriptName)
    ensures IsValidScriptName(script) ==> PythonCommand(script, args) == Ok(CommandPrefix + script + " " + QuotedArguments(args))
  {
  }
}
