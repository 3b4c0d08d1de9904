/** Quoting of child-process arguments, against the Microsoft C run-time rules that split a command line again. */
module CommandLine {

  const BACKSLASH: char := '\\'
  const QUOTE: char := '\"'

  /** The characters .NET counts as white space. */
  predicate IsWhiteSpace(c: char) {
    || '\t' <= c <= '\r' || c == ' ' || c == '\U{0085}' || c == '\U{00A0}' || c == '\U{1680}'
    || '\U{2000}' <= c <= '\U{200A}' || c == '\U{2028}' || c == '\U{2029}' || c == '\U{202F}'
    || c == '\U{205F}' || c == '\U{3000}'
  }

  /** The characters that separate arguments. */
  predicate IsBlank(c: char) {
    c == ' ' || c == '\t'
  }

  function Rep(n: nat): (s: string)
    ensures |s| == n && forall i :: 0 <= i < n ==> s[i] == BACKSLASH
  {
    seq(n, _ => BACKSLASH)
  }

  // ---- Splitting, as the C run-time documents it ----

  function Backslashes(s: string): (n: nat)
    ensures n <= |s| && (n < |s| ==> s[n] != BACKSLASH)
    ensures s != "" && s[0] == BACKSLASH ==> n > 0
  {
    if s == "" || s[0] != BACKSLASH then 0 else 1 + Backslashes(s[1..])
  }

  /** A reader in the middle of an argument: the text ahead, whether it is inside quotes, and what it has read. */
  datatype Reader = Reader(text: string, quoted: bool, read: string)

  predicate AtEnd(r: Reader) {
    r.text == "" || (!r.quoted && IsBlank(r.text[0]))
  }

  /** One move of the reader. `pairs` selects the later run-time rule for two quotes inside a quoted part. */
  function Advance(r: Reader, pairs: bool): (next: Reader)
    requires !AtEnd(r)
    ensures |next.text| < |r.text|
  {
    var s := r.text;
    if s[0] == BACKSLASH then
      var n := Backslashes(s);
      if n < |s| && s[n] == QUOTE then
        if n % 2 == 0 then Reader(s[n..], r.quoted, r.read + Rep(n / 2))
        else Reader(s[n + 1..], r.quoted, r.read + Rep(n / 2) + [QUOTE])
      else Reader(s[n..], r.quoted, r.read + Rep(n))
    else if s[0] == QUOTE then
      if pairs && r.quoted && |s| > 1 && s[1] == QUOTE then Reader(s[2..], true, r.read + [QUOTE])
      else Reader(s[1..], !r.quoted, r.read)
    else Reader(s[1..], r.quoted, r.read + [s[0]])
  }

  /** The argument read and the text left after it. */
  function ReadArg(r: Reader, pairs: bool): (result: (string, string))
    ensures |result.1| <= |r.text|
    ensures !AtEnd(r) ==> |result.1| < |r.text|
    decreases |r.text|
  {
    if AtEnd(r) then (r.read, r.text) else ReadArg(Advance(r, pairs), pairs)
  }

  function Split(s: string, pairs: bool): seq<string>
    decreases |s|
  {
    if s == "" then []
    else if IsBlank(s[0]) then Split(s[1..], pairs)
    else
      var (arg, rest) := ReadArg(Reader(s, false, ""), pairs);
      [arg] + Split(rest, pairs)
  }

  /** The program name has no escapes: quotes toggle and are dropped, a blank outside quotes ends it. */
  function ParseName(s: string, quoted: bool, acc: string): (string, string)
    decreases |s|
  {
    if s == "" then (acc, "")
    else if s[0] == QUOTE then ParseName(s[1..], !quoted, acc)
    else if !quoted && IsBlank(s[0]) then (acc, s)
    else ParseName(s[1..], quoted, acc + [s[0]])
  }

  function SplitCommandLine(s: string, pairs: bool): seq<string> {
    var (name, rest) := ParseName(s, false, "");
    [name] + Split(rest, pairs)
  }

  /** The operating system reads a command line up to its first NUL. */
  function UpToNul(s: string): string {
    if s == "" || s[0] == '\0' then "" else [s[0]] + UpToNul(s[1..])
  }

  // ---- Quoting ----

  predicate NeedsQuotes(argument: string) {
    exists i :: 0 <= i < |argument| && (IsWhiteSpace(argument[i]) || argument[i] == QUOTE)
  }

  /** The code points that .NET counts as white space: 9 to 13, 32, 133, 160, 5760, 8192 to 8202, 8232, 8233, 8239, 8287 and 12288. */
  lemma WhiteSpaceByNumber(c: char, n: int)
    requires n == c as int
    ensures IsWhiteSpace(c) <==>
      || n in {9, 10, 11, 12, 13, 32, 133, 160, 5760, 8232, 8233, 8239, 8287, 12288}
      || n in {8192, 8193, 8194, 8195, 8196, 8197, 8198, 8199, 8200, 8201, 8202}
  {
  }

  /** Outside quotes a blank or a tab ends an argument; inside, two quotes are a quote or, by the earlier rule, an end and a new start. */
  lemma ReaderRules(rest: string, read: string)
    ensures AtEnd(Reader([' '] + rest, false, read)) && AtEnd(Reader(['\t'] + rest, false, read))
    ensures !AtEnd(Reader([' '] + rest, true, read)) && !AtEnd(Reader(['\t'] + rest, true, read))
    ensures Advance(Reader([QUOTE, QUOTE] + rest, true, read), true) == Reader(rest, true, read + [QUOTE])
    ensures Advance(Reader([QUOTE, QUOTE] + rest, true, read), false) == Reader([QUOTE] + rest, false, read)
  {
    var s := [QUOTE, QUOTE] + rest;
    assert s[2..] == rest && s[1..] == [QUOTE] + rest;
  }

  /** An argument is written as it is exactly if it is not empty and holds neither white space nor a quote. */
  lemma PlainIsExact(argument: string)
    ensures Quoted(argument) == argument <==>
      argument != "" && forall i :: 0 <= i < |argument| ==> !IsWhiteSpace(argument[i]) && argument[i] != QUOTE
  {
    if argument != "" && NeedsQuotes(argument) {
      EscapeIsLonger(argument, 0);
    }
  }

  lemma {:induction false} EscapeIsLonger(s: string, k: nat)
    ensures |Escape(s, k)| > |s| + k
    decreases |s|
  {
    if s != "" {
      EscapeIsLonger(s[1..], if s[0] == BACKSLASH then k + 1 else 0);
    }
  }

  /** The text after the opening quote, with k backslashes read and not yet written. */
  ghost function Escape(s: string, k: nat): string {
    if s == "" then Rep(2 * k) + [QUOTE]
    else if s[0] == BACKSLASH then Escape(s[1..], k + 1)
    else if s[0] == QUOTE then Rep(2 * k + 1) + [QUOTE] + Escape(s[1..], 0)
    else Rep(k) + [s[0]] + Escape(s[1..], 0)
  }

  ghost function Quoted(argument: string): string {
    if argument == "" then [QUOTE, QUOTE]
    else if !NeedsQuotes(argument) then argument
    else [QUOTE] + Escape(argument, 0)
  }

  method AnyNeedsQuotes(argument: string) returns (found: bool)
    ensures found <==> NeedsQuotes(argument)
  {
    for i := 0 to |argument|
      invariant forall j :: 0 <= j < i ==> !IsWhiteSpace(argument[j]) && argument[j] != QUOTE
    {
      if IsWhiteSpace(argument[i]) || argument[i] == QUOTE {
        return true;
      }
    }
    found := false;
  }

  method QuoteArgument(argument: string) returns (r: string)
    ensures r == Quoted(argument)
  {
    if |argument| == 0 {
      return [QUOTE, QUOTE];
    }
    var needsQuotes := AnyNeedsQuotes(argument);
    if !needsQuotes {
      return argument;
    }
    var builder: string := [QUOTE];
    var backslashes := 0;
    for i := 0 to |argument|
      invariant 0 <= backslashes
      invariant builder + Escape(argument[i..], backslashes) == [QUOTE] + Escape(argument, 0)
    {
      ghost var rest := argument[i + 1..];
      assert argument[i..][0] == argument[i] && argument[i..][1..] == rest;
      if argument[i] == BACKSLASH {
        backslashes := backslashes + 1;
      } else if argument[i] == QUOTE {
        assert builder + (Rep(2 * backslashes + 1) + [QUOTE] + Escape(rest, 0))
            == builder + Rep(backslashes * 2 + 1) + [QUOTE] + Escape(rest, 0);
        builder := builder + Rep(backslashes * 2 + 1) + [QUOTE];
        backslashes := 0;
      } else {
        assert builder + (Rep(backslashes) + [argument[i]] + Escape(rest, 0))
            == builder + Rep(backslashes) + [argument[i]] + Escape(rest, 0);
        builder := builder + Rep(backslashes) + [argument[i]];
        backslashes := 0;
      }
    }
    r := builder + Rep(backslashes * 2) + [QUOTE];
  }

  ghost function JoinQuoted(args: seq<string>): string {
    if args == [] then ""
    else if |args| == 1 then Quoted(args[0])
    else Quoted(args[0]) + " " + JoinQuoted(args[1..])
  }

  /** File name and argument list as one command line; a raw argument string is used only when the list is empty. */
  ghost function CommandLineOf(file: string, args: seq<string>, raw: string): string {
    var arguments := if args != [] then JoinQuoted(args) else raw;
    Quoted(file) + if arguments == "" then "" else " " + arguments
  }

  method BuildCommandLine(file: string, args: seq<string>, raw: string) returns (commandLine: string)
    ensures commandLine == CommandLineOf(file, args, raw)
  {
    var arguments := raw;
    if |args| > 0 {
      var i := |args| - 1;
      arguments := QuoteArgument(args[i]);
      assert args[i..] == [args[i]];
      while i > 0
        invariant 0 <= i < |args|
        invariant arguments == JoinQuoted(args[i..])
      {
        i := i - 1;
        var quoted := QuoteArgument(args[i]);
        assert args[i..][1..] == args[i + 1..];
        arguments := quoted + " " + arguments;
      }
      assert args[0..] == args;
    }
    commandLine := QuoteArgument(file);
    if arguments != "" {
      commandLine := commandLine + " " + arguments;
    }
  }

  // ---- Round trip ----

  ghost predicate Ends(rest: string) {
    rest == "" || IsBlank(rest[0])
  }

  lemma {:induction false} BackslashRun(n: nat, t: string)
    requires t == "" || t[0] != BACKSLASH
    ensures Backslashes(Rep(n) + t) == n
  {
    if n == 0 {
      assert Rep(0) + t == t;
    } else {
      assert (Rep(n) + t)[1..] == Rep(n - 1) + t;
      BackslashRun(n - 1, t);
    }
  }

  /** n backslashes before a character that is no quote stand for themselves. */
  lemma LiteralRun(n: nat, t: string, quoted: bool, pairs: bool, read: string)
    requires t == "" || (t[0] != BACKSLASH && t[0] != QUOTE)
    ensures ReadArg(Reader(Rep(n) + t, quoted, read), pairs) == ReadArg(Reader(t, quoted, read + Rep(n)), pairs)
  {
    BackslashRun(n, t);
    assert (Rep(n) + t)[n..] == t;
    if n == 0 {
      assert Rep(n) + t == t && read + Rep(n) == read;
    }
  }

  /** An even run of backslashes before a quote stands for half as many. */
  lemma EvenRun(k: nat, t: string, quoted: bool, pairs: bool, read: string)
    requires t != "" && t[0] == QUOTE
    ensures ReadArg(Reader(Rep(2 * k) + t, quoted, read), pairs) == ReadArg(Reader(t, quoted, read + Rep(k)), pairs)
  {
    if k == 0 {
      assert Rep(2 * k) + t == t && read + Rep(k) == read;
    } else {
      BackslashRun(2 * k, t);
      var r := Reader(Rep(2 * k) + t, quoted, read);
      assert r.text[2 * k..] == t && r.text[0] == BACKSLASH && r.text[2 * k] == QUOTE;
      assert Advance(r, pairs) == Reader(t, quoted, read + Rep(k));
    }
  }

  /** An odd run of backslashes before a quote stands for half of the rest and a literal quote. */
  lemma OddRun(k: nat, t: string, quoted: bool, pairs: bool, read: string)
    ensures ReadArg(Reader(Rep(2 * k + 1) + ([QUOTE] + t), quoted, read), pairs)
         == ReadArg(Reader(t, quoted, read + Rep(k) + [QUOTE]), pairs)
  {
    BackslashRun(2 * k + 1, [QUOTE] + t);
    assert (Rep(2 * k + 1) + ([QUOTE] + t))[2 * k + 2..] == t;
  }

  /** An ordinary character reads as itself. */
  lemma OneChar(c: char, t: string, quoted: bool, pairs: bool, read: string)
    requires c != BACKSLASH && c != QUOTE && (quoted || !IsBlank(c))
    ensures ReadArg(Reader([c] + t, quoted, read), pairs) == ReadArg(Reader(t, quoted, read + [c]), pairs)
  {
    assert ([c] + t)[1..] == t;
  }

  /** A closing quote before the end or a blank ends the argument. */
  lemma ClosingQuote(rest: string, pairs: bool, read: string)
    requires Ends(rest)
    ensures ReadArg(Reader([QUOTE] + rest, true, read), pairs) == (read, rest)
  {
    assert ([QUOTE] + rest)[1..] == rest;
  }

  lemma Regroup(a: string, k: nat, s: string)
    requires s != ""
    ensures a + Rep(k) + [s[0]] + Rep(0) + s[1..] == a + Rep(k) + s
    ensures s[0] == BACKSLASH ==> a + Rep(k + 1) + s[1..] == a + Rep(k) + s
  {
  }

  lemma EscapedEnd(k: nat, rest: string, pairs: bool, read: string)
    requires Ends(rest)
    ensures ReadArg(Reader(Escape("", k) + rest, true, read), pairs) == (read + Rep(k), rest)
  {
    assert Escape("", k) + rest == Rep(2 * k) + ([QUOTE] + rest);
    EvenRun(k, [QUOTE] + rest, true, pairs, read);
    ClosingQuote(rest, pairs, read + Rep(k));
  }

  /** The escape of a character that is no backslash reads as the pending backslashes and the character. */
  lemma EscapedStep(s: string, k: nat, rest: string, pairs: bool, read: string)
    requires s != "" && s[0] != BACKSLASH
    ensures ReadArg(Reader(Escape(s, k) + rest, true, read), pairs)
         == ReadArg(Reader(Escape(s[1..], 0) + rest, true, read + Rep(k) + [s[0]]), pairs)
  {
    var tail := Escape(s[1..], 0) + rest;
    if s[0] == QUOTE {
      assert Escape(s, k) + rest == Rep(2 * k + 1) + ([QUOTE] + tail);
      OddRun(k, tail, true, pairs, read);
    } else {
      assert Escape(s, k) + rest == Rep(k) + ([s[0]] + tail);
      LiteralRun(k, [s[0]] + tail, true, pairs, read);
      OneChar(s[0], tail, true, pairs, read + Rep(k));
    }
  }

  /** Inside quotes, escaped text reads back as the text itself and stops at the closing quote. */
  lemma {:induction false} EscapedReadsBack(s: string, k: nat, rest: string, pairs: bool, read: string)
    requires Ends(rest)
    ensures ReadArg(Reader(Escape(s, k) + rest, true, read), pairs) == (read + Rep(k) + s, rest)
    decreases |s|
  {
    if s == "" {
      EscapedEnd(k, rest, pairs, read);
      assert read + Rep(k) + s == read + Rep(k);
    } else if s[0] == BACKSLASH {
      Regroup(read, k, s);
      EscapedReadsBack(s[1..], k + 1, rest, pairs, read);
    } else {
      Regroup(read, k, s);
      EscapedStep(s, k, rest, pairs, read);
      EscapedReadsBack(s[1..], 0, rest, pairs, read + Rep(k) + [s[0]]);
    }
  }

  /** Text without quotes or white space reads back as itself. */
  lemma {:induction false} PlainReadsBack(s: string, rest: string, pairs: bool, read: string)
    requires !NeedsQuotes(s) && Ends(rest)
    ensures ReadArg(Reader(s + rest, false, read), pairs) == (read + s, rest)
    decreases |s|
  {
    if s == "" {
      assert s + rest == rest && read + s == read;
    } else {
      var n := if s[0] == BACKSLASH then Backslashes(s) else 1;
      PlainTail(s, n);
      PlainReadsBack(s[n..], rest, pairs, read + s[..n]);
      assert read + s[..n] + s[n..] == read + s;
      PlainHead(s, n, rest, pairs, read);
    }
  }

  /** The reader passes a leading run of backslashes, or one other character, unchanged. */
  lemma PlainHead(s: string, n: nat, rest: string, pairs: bool, read: string)
    requires !NeedsQuotes(s) && Ends(rest) && s != "" && n == if s[0] == BACKSLASH then Backslashes(s) else 1
    ensures ReadArg(Reader(s + rest, false, read), pairs) == ReadArg(Reader(s[n..] + rest, false, read + s[..n]), pairs)
  {
    var head, tail := s[..n], s[n..];
    PlainTail(s, n);
    assert s + rest == head + (tail + rest);
    if s[0] == BACKSLASH {
      RunOf(s);
      assert head == Rep(n);
      LiteralRun(n, tail + rest, false, pairs, read);
    } else {
      assert head == [s[0]];
      OneChar(s[0], tail + rest, false, pairs, read);
    }
  }

  lemma PlainTail(s: string, n: nat)
    requires !NeedsQuotes(s) && n <= |s|
    ensures !NeedsQuotes(s[n..])
    ensures n < |s| ==> s[n..][0] == s[n]
  {
    assert forall i :: 0 <= i < |s| - n ==> s[n..][i] == s[n + i];
  }

  lemma {:induction false} RunOf(s: string)
    ensures s == Rep(Backslashes(s)) + s[Backslashes(s)..]
  {
    if s != "" && s[0] == BACKSLASH {
      RunOf(s[1..]);
      assert Rep(Backslashes(s)) == [BACKSLASH] + Rep(Backslashes(s[1..]));
    }
  }

  lemma EmptyReadsBack(rest: string, pairs: bool)
    requires Ends(rest)
    ensures ReadArg(Reader([QUOTE, QUOTE] + rest, false, ""), pairs) == ("", rest)
  {
    assert [QUOTE, QUOTE] + rest == [QUOTE] + ([QUOTE] + rest);
    OpeningQuote([QUOTE] + rest, pairs);
    ClosingQuote(rest, pairs, "");
  }

  lemma InQuotesReadsBack(argument: string, rest: string, pairs: bool)
    requires Ends(rest) && argument != "" && NeedsQuotes(argument)
    ensures ReadArg(Reader(Quoted(argument) + rest, false, ""), pairs) == (argument, rest)
  {
    var escaped := Escape(argument, 0) + rest;
    assert Quoted(argument) + rest == [QUOTE] + escaped;
    OpeningQuote(escaped, pairs);
    EscapedReadsBack(argument, 0, rest, pairs, "");
    assert "" + Rep(0) + argument == argument;
  }

  lemma QuotedReadsBack(argument: string, rest: string, pairs: bool)
    requires Ends(rest)
    ensures Quoted(argument) != "" && !IsBlank(Quoted(argument)[0])
    ensures ReadArg(Reader(Quoted(argument) + rest, false, ""), pairs) == (argument, rest)
  {
    if argument == "" {
      EmptyReadsBack(rest, pairs);
    } else if !NeedsQuotes(argument) {
      PlainReadsBack(argument, rest, pairs, "");
      assert "" + argument == argument;
    } else {
      InQuotesReadsBack(argument, rest, pairs);
    }
  }

  lemma OpeningQuote(t: string, pairs: bool)
    ensures ReadArg(Reader([QUOTE] + t, false, ""), pairs) == ReadArg(Reader(t, true, ""), pairs)
  {
    assert ([QUOTE] + t)[1..] == t;
  }

  /** Splitting the space-joined quoted arguments returns them, under either quote-pair rule. */
  lemma {:induction false} JoinSplits(args: seq<string>, pairs: bool)
    ensures Split(JoinQuoted(args), pairs) == args
    ensures args != [] ==> JoinQuoted(args) != ""
  {
    if args != [] {
      var text := JoinQuoted(args);
      var rest := if |args| == 1 then "" else " " + JoinQuoted(args[1..]);
      assert text == Quoted(args[0]) + rest;
      QuotedReadsBack(args[0], rest, pairs);
      JoinSplits(args[1..], pairs);
      assert rest != "" ==> rest[1..] == JoinQuoted(args[1..]);
      assert [args[0]] + args[1..] == args;
    }
  }

  // ---- NUL ----

  ghost predicate NulFree(s: string) {
    '\0' !in s
  }

  lemma {:induction false} UpToNulIsFree(s: string)
    ensures NulFree(UpToNul(s))
    ensures NulFree(s) ==> UpToNul(s) == s
  {
    if s != "" && s[0] != '\0' {
      UpToNulIsFree(s[1..]);
      assert s == [s[0]] + s[1..];
    }
  }

  lemma {:induction false} ReadArgNulFree(r: Reader, pairs: bool)
    requires NulFree(r.text) && NulFree(r.read)
    ensures NulFree(ReadArg(r, pairs).0) && NulFree(ReadArg(r, pairs).1)
    decreases |r.text|
  {
    if !AtEnd(r) {
      ReadArgNulFree(Advance(r, pairs), pairs);
    }
  }

  lemma {:induction false} SplitNulFree(s: string, pairs: bool)
    requires NulFree(s)
    ensures forall i :: 0 <= i < |Split(s, pairs)| ==> NulFree(Split(s, pairs)[i])
    decreases |s|
  {
    if s != "" {
      if IsBlank(s[0]) {
        SplitNulFree(s[1..], pairs);
      } else {
        ReadArgNulFree(Reader(s, false, ""), pairs);
        SplitNulFree(ReadArg(Reader(s, false, ""), pairs).1, pairs);
      }
    }
  }

  ghost predicate AllNulFree(args: seq<string>) {
    forall i :: 0 <= i < |args| ==> NulFree(args[i])
  }

  lemma {:induction false} EscapeNulFree(s: string, k: nat)
    requires NulFree(s)
    ensures NulFree(Escape(s, k))
    decreases |s|
  {
    if s != "" {
      EscapeNulFree(s[1..], if s[0] == BACKSLASH then k + 1 else 0);
    }
  }

  lemma {:induction false} JoinNulFree(args: seq<string>)
    requires AllNulFree(args)
    ensures NulFree(JoinQuoted(args))
  {
    if args != [] {
      EscapeNulFree(args[0], 0);
      JoinNulFree(args[1..]);
    }
  }

  /** The argument list survives the trip through the command line exactly when no argument holds a NUL. */
  lemma ArgumentsRoundTrip(args: seq<string>, pairs: bool)
    ensures Split(UpToNul(JoinQuoted(args)), pairs) == args <==> AllNulFree(args)
  {
    UpToNulIsFree(JoinQuoted(args));
    SplitNulFree(UpToNul(JoinQuoted(args)), pairs);
    if AllNulFree(args) {
      JoinNulFree(args);
      JoinSplits(args, pairs);
    }
  }

  // ---- The whole line, program name included ----

  /** Names the quoting keeps readable by the program-name rule, which knows no escapes. */
  predicate NameSafe(file: string) {
    QUOTE !in file && (NeedsQuotes(file) ==> file[|file| - 1] != BACKSLASH)
  }

  lemma {:induction false} NameHasNoQuote(s: string, quoted: bool, acc: string)
    requires QUOTE !in acc
    ensures QUOTE !in ParseName(s, quoted, acc).0
    decreases |s|
  {
    if s != "" && s[0] == QUOTE {
      NameHasNoQuote(s[1..], !quoted, acc);
    } else if s != "" && (quoted || !IsBlank(s[0])) {
      NameHasNoQuote(s[1..], quoted, acc + [s[0]]);
    }
  }

  lemma {:induction false} NameNulFree(s: string, quoted: bool, acc: string)
    requires NulFree(s) && NulFree(acc)
    ensures NulFree(ParseName(s, quoted, acc).0) && NulFree(ParseName(s, quoted, acc).1)
    decreases |s|
  {
    if s != "" && s[0] == QUOTE {
      NameNulFree(s[1..], !quoted, acc);
    } else if s != "" && (quoted || !IsBlank(s[0])) {
      NameNulFree(s[1..], quoted, acc + [s[0]]);
    }
  }

  /** Quote-free text is read as it stands, up to the closing quote or the end. */
  lemma {:induction false} NameReads(s: string, quoted: bool, rest: string, acc: string)
    requires QUOTE !in s && (!quoted ==> forall i :: 0 <= i < |s| ==> !IsBlank(s[i]))
    requires if quoted then rest != "" && rest[0] == QUOTE && Ends(rest[1..]) else Ends(rest)
    ensures ParseName(s + rest, quoted, acc) == (acc + s, if quoted then rest[1..] else rest)
    decreases |s|
  {
    if s == "" {
      assert s + rest == rest && acc + s == acc;
    } else {
      assert (s + rest)[1..] == s[1..] + rest;
      NameReads(s[1..], quoted, rest, acc + [s[0]]);
      assert acc + [s[0]] + s[1..] == acc + s;
    }
  }

  /** Without quotes, escaping only doubles the backslashes at the end. */
  lemma {:induction false} EscapeWithoutQuotes(s: string, k: nat) returns (extra: nat)
    requires QUOTE !in s
    ensures Escape(s, k) == Rep(k) + s + Rep(extra) + [QUOTE]
    ensures extra == 0 <==> if s == "" then k == 0 else s[|s| - 1] != BACKSLASH
    decreases |s|
  {
    if s == "" {
      extra := k;
      assert Rep(2 * k) == Rep(k) + Rep(k);
    } else if s[0] == BACKSLASH {
      extra := EscapeWithoutQuotes(s[1..], k + 1);
      assert Rep(k + 1) + s[1..] == Rep(k) + s;
    } else {
      extra := EscapeWithoutQuotes(s[1..], 0);
      assert Rep(k) + [s[0]] + (Rep(0) + s[1..] + Rep(extra) + [QUOTE]) == Rep(k) + s + Rep(extra) + [QUOTE];
    }
  }

  /** A quoted, quote-free name reads back with its final backslashes doubled. */
  lemma QuotedNameText(file: string, rest: string) returns (extra: nat)
    requires QUOTE !in file && file != "" && NeedsQuotes(file)
    ensures Quoted(file) + rest == [QUOTE] + ((file + Rep(extra)) + ([QUOTE] + rest))
    ensures extra == 0 <==> file[|file| - 1] != BACKSLASH
  {
    extra := EscapeWithoutQuotes(file, 0);
    assert Rep(0) + file + Rep(extra) + [QUOTE] == (file + Rep(extra)) + [QUOTE];
  }

  lemma QuotedNameReads(file: string, rest: string) returns (extra: nat)
    requires Ends(rest) && QUOTE !in file && file != "" && NeedsQuotes(file)
    ensures ParseName(Quoted(file) + rest, false, "") == (file + Rep(extra), rest)
    ensures extra == 0 <==> file[|file| - 1] != BACKSLASH
  {
    extra := QuotedNameText(file, rest);
    NoQuoteInBody(file, extra);
    NameInQuotes(file + Rep(extra), rest);
  }

  lemma NameInQuotes(body: string, rest: string)
    requires Ends(rest) && QUOTE !in body
    ensures ParseName([QUOTE] + (body + ([QUOTE] + rest)), false, "") == (body, rest)
  {
    var close := [QUOTE] + rest;
    OpensName(body + close);
    assert close[1..] == rest;
    NameReads(body, true, close, "");
    assert "" + body == body;
  }

  lemma OpensName(t: string)
    ensures ParseName([QUOTE] + t, false, "") == ParseName(t, true, "")
  {
    assert ([QUOTE] + t)[1..] == t;
  }

  lemma NoQuoteInBody(file: string, extra: nat)
    requires QUOTE !in file
    ensures QUOTE !in file + Rep(extra)
  {
  }

  lemma NameRoundTrip(file: string, rest: string)
    requires Ends(rest) && QUOTE !in file
    ensures ParseName(Quoted(file) + rest, false, "").0 == file <==> NameSafe(file)
    ensures NameSafe(file) ==> ParseName(Quoted(file) + rest, false, "").1 == rest
  {
    if file == "" {
      assert Quoted(file) + rest == [QUOTE] + ([QUOTE] + rest);
      OpensName([QUOTE] + rest);
      assert ([QUOTE] + rest)[1..] == rest;
      assert ParseName([QUOTE] + rest, true, "") == ParseName(rest, false, "");
    } else if !NeedsQuotes(file) {
      NameReads(file, false, rest, "");
      assert "" + file == file;
    } else {
      var extra := QuotedNameReads(file, rest);
      assert |file + Rep(extra)| == |file| + extra;
      assert extra == 0 ==> file + Rep(extra) == file;
    }
  }

  /** One name that is lost: quoted for its blank, the last backslash keeps its quote inside the name. */
  lemma NameCanBeLost(file: string)
    requires file == "a b\\"
    ensures !NameSafe(file) && ParseName(Quoted(file), false, "").0 != file
  {
    assert Quoted(file) + "" == Quoted(file);
    NameRoundTrip(file, "");
  }

  /** The child sees exactly this file name and these arguments if and only if the name is safe and nothing holds a NUL. */
  lemma CommandLineRoundTrip(file: string, args: seq<string>, pairs: bool)
    ensures SplitCommandLine(UpToNul(CommandLineOf(file, args, "")), pairs) == [file] + args
       <==> NameSafe(file) && NulFree(file) && AllNulFree(args)
  {
    var line := CommandLineOf(file, args, "");
    var rest := if JoinQuoted(args) == "" then "" else " " + JoinQuoted(args);
    JoinSplits(args, pairs);
    assert line == Quoted(file) + rest;
    assert rest != "" ==> rest[1..] == JoinQuoted(args);
    assert Split(rest, pairs) == args;
    var seen := UpToNul(line);
    UpToNulIsFree(line);
    NameHasNoQuote(seen, false, "");
    NameNulFree(seen, false, "");
    SplitNulFree(ParseName(seen, false, "").1, pairs);
    var result := SplitCommandLine(seen, pairs);
    if result == [file] + args {
      assert result[0] == file && result[1..] == args;
    }
    if NulFree(file) && AllNulFree(args) && QUOTE !in file {
      EscapeNulFree(file, 0);
      JoinNulFree(args);
      NameRoundTrip(file, rest);
    }
  }
}
