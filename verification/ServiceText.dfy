/**
  * Texts written for service managers: kellner/src/service.rs, `systemd_quote`, the
  * ExecStart line of `systemd_user_unit`, and `xml_escape`. Each printer is proved against a
  * reader of what it prints.
  */
module ServiceText {
  import opened Wrappers
  import opened Splitting

  // ---------------------------------------------------------------- systemd: printing

  predicate IsSafe(c: char) {
    'a' <= c <= 'z' || 'A' <= c <= 'Z' || '0' <= c <= '9' || c in {'/', '.', '_', '-', ':', '@', '+'}
  }

  predicate AllSafe(arg: string) {
    arg != "" && forall c <- arg :: IsSafe(c)
  }

  function Escaped(arg: string): string {
    if arg == "" then ""
    else Escaped(arg[..|arg| - 1]) + (if NeedsEscape(arg[|arg| - 1]) then ['\\'] else []) + [arg[|arg| - 1]]
  }

  predicate NeedsEscape(c: char) {
    c == '"' || c == '\\'
  }

  function Quoted(arg: string): string {
    if AllSafe(arg) then arg else ['"'] + Escaped(arg) + ['"']
  }

  method SystemdQuote(arg: string) returns (out: string)
    ensures out == Quoted(arg)
  {
    if AllSafe(arg) {
      return arg;
    }
    out := ['"'];
    for i := 0 to |arg|
      invariant out == ['"'] + Escaped(arg[..i])
    {
      assert arg[..i + 1][..i] == arg[..i];
      if arg[i] == '"' || arg[i] == '\\' {
        out := out + ['\\'];
      }
      out := out + [arg[i]];
    }
    assert arg[..|arg|] == arg;
    out := out + ['"'];
  }

  function AllQuoted(argv: seq<string>): seq<string> {
    seq(|argv|, i requires 0 <= i < |argv| => Quoted(argv[i]))
  }

  /** The command line of the unit: program and arguments, quoted, one space between. */
  function ExecStart(argv: seq<string>): string {
    Joined(AllQuoted(argv), " ")
  }

  // ---------------------------------------------------------------- systemd: reading

  predicate IsBlank(c: char) {
    c == ' ' || c == '\t' || c == '\n' || c == '\r'
  }

  datatype Mode = Between | Bare | InQuotes | Closed

  /**
    * Reads a command line: words apart by blanks, a word either bare or wholly in double
    * quotes, where a backslash takes the quote or backslash after it literally. None for a line
    * that is not of this form. `word` is what has been read of the current word.
    */
  function Read(s: string, mode: Mode, word: string): Option<seq<string>>
    decreases |s|
  {
    match mode
    case Between =>
      if s == "" then Some([])
      else if IsBlank(s[0]) then Read(s[1..], Between, "")
      else if s[0] == '"' then Read(s[1..], InQuotes, "")
      else if s[0] == '\\' || s[0] == '\'' then None
      else Read(s[1..], Bare, [s[0]])
    case Bare =>
      if s == "" then Some([word])
      else if IsBlank(s[0]) then Prepended(word, Read(s[1..], Between, ""))
      else if s[0] in {'"', '\\', '\''} then None
      else Read(s[1..], Bare, word + [s[0]])
    case InQuotes =>
      if s == "" then None
      else if s[0] == '"' then Read(s[1..], Closed, word)
      else if s[0] == '\\' then
        if |s| >= 2 && NeedsEscape(s[1]) then Read(s[2..], InQuotes, word + [s[1]]) else None
      else Read(s[1..], InQuotes, word + [s[0]])
    case Closed =>
      if s == "" then Some([word])
      else if IsBlank(s[0]) then Prepended(word, Read(s[1..], Between, ""))
      else None
  }

  function Prepended(word: string, rest: Option<seq<string>>): Option<seq<string>> {
    if rest.Some? then Some([word] + rest.value) else None
  }

  function ReadLine(s: string): Option<seq<string>> {
    Read(s, Between, "")
  }

  // ---------------------------------------------------------------- systemd: reading what was printed

  lemma {:induction false} ReadBare(arg: string, word: string, rest: string)
    requires forall c <- arg :: IsSafe(c)
    ensures Read(arg + rest, Bare, word) == Read(rest, Bare, word + arg)
  {
    if arg == "" {
      assert arg + rest == rest && word + arg == word;
    } else {
      assert arg[0] in arg;
      assert (arg + rest)[1..] == arg[1..] + rest;
      ReadBare(arg[1..], word + [arg[0]], rest);
      assert word + [arg[0]] + arg[1..] == word + arg;
    }
  }

  lemma {:induction false} EscapedFirst(arg: string)
    requires arg != ""
    ensures Escaped(arg) == (if NeedsEscape(arg[0]) then ['\\'] else []) + [arg[0]] + Escaped(arg[1..])
  {
    if |arg| > 1 {
      var n := |arg| - 1;
      EscapedFirst(arg[..n]);
      assert arg[..n][1..] == arg[1..][..n - 1];
    }
  }

  lemma {:induction false} ReadQuoted(arg: string, word: string, rest: string)
    ensures Read(Escaped(arg) + (['"'] + rest), InQuotes, word) == Read(rest, Closed, word + arg)
    decreases |arg|
  {
    var tail := ['"'] + rest;
    if arg == "" {
      assert Escaped(arg) + tail == tail && tail[1..] == rest && word + arg == word;
    } else {
      var c := arg[0];
      EscapedFirst(arg);
      var s := Escaped(arg) + tail;
      ReadQuoted(arg[1..], word + [c], rest);
      assert word + [c] + arg[1..] == word + arg;
      if NeedsEscape(c) {
        assert s == ['\\', c] + (Escaped(arg[1..]) + tail);
        assert s[2..] == Escaped(arg[1..]) + tail;
      } else {
        assert s == [c] + (Escaped(arg[1..]) + tail);
        assert s[1..] == Escaped(arg[1..]) + tail;
      }
    }
  }

  lemma ReadSafeWord(arg: string, rest: string)
    requires AllSafe(arg)
    ensures ReadLine(arg + rest) == Read(rest, Bare, arg)
  {
    assert arg[0] in arg;
    assert (arg + rest)[1..] == arg[1..] + rest;
    ReadBare(arg[1..], [arg[0]], rest);
    assert [arg[0]] + arg[1..] == arg;
  }

  lemma ReadQuotedWord(arg: string, rest: string)
    ensures ReadLine(['"'] + Escaped(arg) + ['"'] + rest) == Read(rest, Closed, arg)
  {
    var s := ['"'] + Escaped(arg) + ['"'] + rest;
    assert s[1..] == Escaped(arg) + (['"'] + rest);
    ReadQuoted(arg, "", rest);
    assert "" + arg == arg;
  }

  lemma ReadWordEnd(word: string, rest: string, mode: Mode)
    requires rest == "" || rest[0] == ' '
    requires mode == Bare || mode == Closed
    ensures Read(rest, mode, word) == if rest == "" then Some([word]) else Prepended(word, ReadLine(rest[1..]))
  {
  }

  /** One printed word, at the end of the line or before a space, is read as itself. */
  lemma ReadWord(arg: string, rest: string)
    requires rest == "" || rest[0] == ' '
    ensures ReadLine(Quoted(arg) + rest)
         == if rest == "" then Some([arg]) else Prepended(arg, ReadLine(rest[1..]))
  {
    if AllSafe(arg) {
      ReadSafeWord(arg, rest);
      ReadWordEnd(arg, rest, Bare);
    } else {
      ReadQuotedWord(arg, rest);
      ReadWordEnd(arg, rest, Closed);
    }
  }

  /** The printed command line reads back as the exact argument list. */
  lemma {:induction false} ExecStartReadsBack(argv: seq<string>)
    ensures ReadLine(ExecStart(argv)) == Some(argv)
  {
    if argv != [] {
      var q := AllQuoted(argv);
      assert q[1..] == AllQuoted(argv[1..]);
      ExecStartReadsBack(argv[1..]);
      if |argv| == 1 {
        ReadWord(argv[0], "");
        assert Quoted(argv[0]) + "" == Quoted(argv[0]);
        assert ExecStart(argv) == Quoted(argv[0]) && argv == [argv[0]];
      } else {
        var rest := " " + ExecStart(argv[1..]);
        assert rest[1..] == ExecStart(argv[1..]);
        ReadWord(argv[0], rest);
        assert [argv[0]] + argv[1..] == argv;
      }
    }
  }

  /** So two argument lists never print alike. */
  lemma ExecStartIsInjective(a: seq<string>, b: seq<string>)
    requires ExecStart(a) == ExecStart(b)
    ensures a == b
  {
    ExecStartReadsBack(a);
    ExecStartReadsBack(b);
  }

  lemma {:induction false} EscapedKeepsNewlines(arg: string)
    ensures '\n' in Escaped(arg) <==> '\n' in arg
  {
    if arg != "" {
      var n := |arg| - 1;
      EscapedKeepsNewlines(arg[..n]);
      assert arg == arg[..n] + [arg[n]];
    }
  }

  lemma QuotedKeepsNewlines(arg: string)
    ensures '\n' in Quoted(arg) <==> '\n' in arg
  {
    EscapedKeepsNewlines(arg);
  }

  /** The line stays one line of the unit file exactly when no argument holds a line break. */
  lemma {:induction false} OneLineExactly(argv: seq<string>)
    ensures '\n' in ExecStart(argv) <==> exists arg <- argv :: '\n' in arg
  {
    if argv != [] {
      assert AllQuoted(argv)[1..] == AllQuoted(argv[1..]);
      OneLineExactly(argv[1..]);
      QuotedKeepsNewlines(argv[0]);
      assert argv == [argv[0]] + argv[1..];
      assert |argv| == 1 ==> argv[1..] == [];
    }
  }

  // ---------------------------------------------------------------- which arguments are quoted

  /** What a character is inside quotes: a backslash stands before a quote and before a backslash. */
  function InsideQuotes(c: char): string {
    match c
    case '"' => "\\\""
    case '\\' => "\\\\"
    case _ => [c]
  }

  lemma EscapedOneMore(arg: string, c: char)
    ensures Escaped(arg + [c]) == Escaped(arg) + InsideQuotes(c)
  {
    assert (arg + [c])[..|arg|] == arg;
    assert c == '"' ==> ['\\'] + [c] == InsideQuotes(c);
    assert c == '\\' ==> ['\\'] + [c] == InsideQuotes(c);
  }

  lemma {:induction false} EscapedIsLonger(arg: string)
    ensures |Escaped(arg)| >= |arg|
  {
    if arg != "" {
      EscapedIsLonger(arg[..|arg| - 1]);
    }
  }

  /** ASCII letters and digits and seven more characters need no quotes. */
  predicate NeedsNoQuotes(c: char) {
    || 'a' <= c <= 'z' || 'A' <= c <= 'Z' || '0' <= c <= '9'
    || c == '/' || c == '.' || c == '_' || c == '-' || c == ':' || c == '@' || c == '+'
  }

  /** An argument is printed as it is exactly when it is not empty and made of those; else in quotes. */
  lemma QuotedExactly(arg: string)
    ensures Quoted(arg) == arg <==> arg != "" && forall c <- arg :: NeedsNoQuotes(c)
    ensures Quoted(arg) != arg ==> Quoted(arg) == "\"" + Escaped(arg) + "\""
  {
    EscapedIsLonger(arg);
    assert AllSafe(arg) <==> arg != "" && forall c <- arg :: NeedsNoQuotes(c);
  }

  // ---------------------------------------------------------------- XML

  /** Every `c` replaced by a text. */
  function ReplaceChar(s: string, c: char, with: string): string {
    if s == "" then "" else (if s[0] == c then with else [s[0]]) + ReplaceChar(s[1..], c, with)
  }

  function XmlEscape(s: string): string {
    ReplaceChar(ReplaceChar(ReplaceChar(ReplaceChar(s, '&', "&amp;"), '<', "&lt;"), '>', "&gt;"), '"', "&quot;")
  }

  /** What one pass over the text would write for a character. */
  function Entity(c: char): string {
    if c == '&' then "&amp;" else if c == '<' then "&lt;" else if c == '>' then "&gt;"
    else if c == '"' then "&quot;" else [c]
  }

  function OnePass(s: string): string {
    if s == "" then "" else Entity(s[0]) + OnePass(s[1..])
  }

  lemma {:induction false} ReplaceInTwo(s: string, t: string, c: char, with: string)
    ensures ReplaceChar(s + t, c, with) == ReplaceChar(s, c, with) + ReplaceChar(t, c, with)
  {
    if s == "" {
      assert s + t == t;
    } else {
      assert (s + t)[1..] == s[1..] + t;
      ReplaceInTwo(s[1..], t, c, with);
    }
  }

  lemma {:induction false} NothingToReplace(s: string, c: char, with: string)
    requires c !in s
    ensures ReplaceChar(s, c, with) == s
  {
    if s != "" {
      NothingToReplace(s[1..], c, with);
      assert s == [s[0]] + s[1..];
    }
  }

  lemma EscapeInTwo(s: string, t: string)
    ensures XmlEscape(s + t) == XmlEscape(s) + XmlEscape(t)
  {
    var a, b := ReplaceChar(s, '&', "&amp;"), ReplaceChar(t, '&', "&amp;");
    ReplaceInTwo(s, t, '&', "&amp;");
    ReplaceInTwo(a, b, '<', "&lt;");
    var a', b' := ReplaceChar(a, '<', "&lt;"), ReplaceChar(b, '<', "&lt;");
    ReplaceInTwo(a', b', '>', "&gt;");
    ReplaceInTwo(ReplaceChar(a', '>', "&gt;"), ReplaceChar(b', '>', "&gt;"), '"', "&quot;");
  }

  lemma ReplaceOne(c: char, d: char, with: string)
    ensures ReplaceChar([c], d, with) == if c == d then with else [c]
  {
    assert [c][1..] == "";
  }

  lemma EscapeAmpersand()
    ensures XmlEscape("&") == "&amp;"
  {
    var amp := "&amp;";
    ReplaceOne('&', '&', amp);
    assert '<' !in amp && '>' !in amp && '"' !in amp;
    NothingToReplace(amp, '<', "&lt;");
    NothingToReplace(amp, '>', "&gt;");
    NothingToReplace(amp, '"', "&quot;");
  }

  lemma EscapeOne(c: char)
    ensures XmlEscape([c]) == Entity(c)
  {
    if c == '&' {
      EscapeAmpersand();
    } else {
      ReplaceOne(c, '&', "&amp;");
      ReplaceOne(c, '<', "&lt;");
      ReplaceOne(c, '>', "&gt;");
      ReplaceOne(c, '"', "&quot;");
      if c == '<' {
        NothingToReplace("&lt;", '>', "&gt;");
        NothingToReplace("&lt;", '"', "&quot;");
      } else if c == '>' {
        NothingToReplace("&gt;", '"', "&quot;");
      }
    }
  }

  /** The four replaces, one after the other, do what one pass does: none undoes an earlier one. */
  lemma {:induction false} ChainIsOnePass(s: string)
    ensures XmlEscape(s) == OnePass(s)
  {
    if s != "" {
      assert s == [s[0]] + s[1..];
      EscapeInTwo([s[0]], s[1..]);
      EscapeOne(s[0]);
      ChainIsOnePass(s[1..]);
    }
  }

  /** The predefined entities of section 4.6 of XML 1.0; None for any other use of an ampersand. */
  function Decoded(s: string): Option<string>
    decreases |s|
  {
    if s == "" then Some("")
    else if s[0] != '&' then WithFirst(s[0], Decoded(s[1..]))
    else if "&amp;" <= s then WithFirst('&', Decoded(s[5..]))
    else if "&lt;" <= s then WithFirst('<', Decoded(s[4..]))
    else if "&gt;" <= s then WithFirst('>', Decoded(s[4..]))
    else if "&quot;" <= s then WithFirst('"', Decoded(s[6..]))
    else if "&apos;" <= s then WithFirst('\'', Decoded(s[6..]))
    else None
  }

  function WithFirst(c: char, rest: Option<string>): Option<string> {
    if rest.Some? then Some([c] + rest.value) else None
  }

  lemma DecodeOne(c: char, rest: string)
    ensures Decoded(Entity(c) + rest) == WithFirst(c, Decoded(rest))
  {
    var s := Entity(c) + rest;
    assert s[|Entity(c)|..] == rest;
    if c == '<' {
      assert s[1] == 'l';
    } else if c == '>' {
      assert s[1] == 'g';
    } else if c == '"' {
      assert s[1] == 'q';
    }
  }

  lemma {:induction false} OnePassDecodes(s: string)
    ensures Decoded(OnePass(s)) == Some(s)
  {
    if s != "" {
      OnePassDecodes(s[1..]);
      DecodeOne(s[0], OnePass(s[1..]));
      assert s == [s[0]] + s[1..];
    }
  }

  /** Decoding the entities restores the text. */
  lemma EscapeDecodes(s: string)
    ensures Decoded(XmlEscape(s)) == Some(s)
  {
    ChainIsOnePass(s);
    OnePassDecodes(s);
  }

  /** Escaped text holds no markup characters. */
  lemma {:induction false} EscapedHasNoMarkup(s: string)
    ensures forall c <- XmlEscape(s) :: c !in {'<', '>', '"'}
  {
    ChainIsOnePass(s);
    if s != "" {
      ChainIsOnePass(s[1..]);
      EscapedHasNoMarkup(s[1..]);
    }
  }

  /** Character by character: only these four change. */
  lemma EscapedOneByOne(s: string, c: char)
    ensures XmlEscape("") == ""
    ensures XmlEscape(s + [c]) == XmlEscape(s)
            + match c
              case '&' => "&amp;"
              case '<' => "&lt;"
              case '>' => "&gt;"
              case '"' => "&quot;"
              case _ => [c]
  {
    EscapeInTwo(s, [c]);
    EscapeOne(c);
  }
}
