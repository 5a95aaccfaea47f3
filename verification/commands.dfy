/**
 The chat command parser (`getUserCommand`, `contains`, `getCommands`).

 The message text is split on single spaces. The first token must be
 "/start" or "/check". For "/check", token 1 is the year (read by Atoi and
 truncated to int32), token 2 the filename, and tokens 3 onward, joined
 again with single spaces, the document, sent as padded standard base64.
 The parser checks no token counts: "/check" alone indexes past the end
 of the token slice, and "/check <year>" with a readable year slices past
 it; both are Go runtime panics, modelled as `Panicked`.
 */
module Commands {
  import opened GoTypes
  import opened Strings
  import opened Strconv
  import Base64

  const CommandStart: Bytes := [0x2F, 0x73, 0x74, 0x61, 0x72, 0x74]  // "/start"
  const CommandCheck: Bytes := [0x2F, 0x63, 0x68, 0x65, 0x63, 0x6B]  // "/check"

  /** Go's `UserCommand`; a "/start" command leaves the other fields zero. */
  datatype UserCommand = UserCommand(command: Bytes, year: Int32, filename: Bytes, file: string)

  const StartCommand: UserCommand := UserCommand(CommandStart, 0, [], "")

  datatype CommandError =
    | IncorrectCommand          // first token is neither "/start" nor "/check"
    | YearError(cause: NumError) // Atoi's error on token 1, returned as is

  /** The recognised command words (`getCommands`). */
  function GetCommands(): (r: seq<Bytes>)
    ensures CommandStart in r && CommandCheck in r
    ensures forall i | 0 <= i < |r| :: r[i] == CommandStart || r[i] == CommandCheck
  {
    [CommandStart, CommandCheck]
  }

  /**
   `contains`: a scan over the whole slice that sets a flag on every match
   and never leaves early or resets the flag. The result is membership,
   however many times the term occurs.
   */
  method Contains(s: seq<Bytes>, searchterm: Bytes) returns (found: bool)
    ensures found <==> searchterm in s
    ensures found <==> exists i | 0 <= i < |s| :: s[i] == searchterm
  {
    found := false;
    for i := 0 to |s|
      invariant found <==> searchterm in s[..i]
    {
      if s[i] == searchterm {
        found := true;
      }
    }
    assert s[..|s|] == s;
  }

  /** The space-separated tokens of a message (`strings.Split(text, " ")`). */
  function Tokens(text: Bytes): (parts: seq<Bytes>)
    ensures |parts| >= 1
    ensures PiecesExclude(parts, Space)
    ensures Join(parts, Space) == text
  {
    Split(text, Space)
  }

  /** `getUserCommand`, with `contains(getCommands(), t)` as membership (see Contains). */
  function GetUserCommand(text: Bytes): (r: Outcome<UserCommand, CommandError>)
    ensures r == Failed(IncorrectCommand) <==> Tokens(text)[0] !in GetCommands()
    ensures Tokens(text)[0] == CommandStart ==> r == Returned(StartCommand)
    ensures r.Returned? ==> r.value.command in GetCommands()
    ensures r.Panicked? <==>
      Tokens(text)[0] == CommandCheck &&
      (|Tokens(text)| == 1 || (|Tokens(text)| == 2 && Atoi(Tokens(text)[1]).Ok?))
    ensures r.Failed? && r.error.YearError? <==>
      Tokens(text)[0] == CommandCheck && |Tokens(text)| >= 2 && Atoi(Tokens(text)[1]).Err?
    ensures r.Failed? && r.error.YearError? ==> r.error.cause == Atoi(Tokens(text)[1]).error
    ensures r.Failed? && r.error.YearError? ==> r.error.cause.input == Tokens(text)[1]
    ensures r.Returned? && r.value.command == CommandCheck ==>
      var parts := Tokens(text);
      && |parts| >= 3
      && Atoi(parts[1]).Ok?
      && r.value.year == ToInt32(Atoi(parts[1]).value)
      && r.value.filename == parts[2]
      && Base64.Decode(r.value.file) == Some(Join(parts[3..], Space))
  {
    var parts := Tokens(text);
    if parts[0] !in GetCommands() then Failed(IncorrectCommand)
    else if parts[0] == CommandStart then Returned(StartCommand)
    else if |parts| < 2 then Panicked(IndexOutOfRange(1, |parts|))
    else match Atoi(parts[1])
      case Err(e) => Failed(YearError(e))
      case Ok(year) =>
        if |parts| < 3 then Panicked(SliceOutOfRange(3, |parts|))
        else
          var content := Join(parts[3..], Space);
          Base64.RoundTrip(content);
          Returned(UserCommand(CommandCheck, ToInt32(year), parts[2], Base64.Encode(content)))
  }

  lemma CommandWordsDiffer()
    ensures CommandStart != CommandCheck
    ensures Excludes(CommandStart, Space) && Excludes(CommandCheck, Space)
  {
    assert CommandStart[1] != CommandCheck[1];
  }

  /**
   A "/start" token followed by a space and anything at all is the start
   command: the rest of the message is never looked at.
   */
  lemma StartIgnoresRest(rest: Bytes)
    ensures GetUserCommand(CommandStart + [Space] + rest) == Returned(StartCommand)
  {
    CommandWordsDiffer();
    SplitCons(CommandStart, rest, Space);
  }

  /**
   The check command built from its parts: a message "/check Y F W1 ... Wn"
   whose tokens contain no space parses to the command whose year is Y read
   and truncated, whose filename is F, and whose file is the base64 of
   "W1 ... Wn"; a bad Y is Atoi's error.
   */
  lemma CheckCommandOf(year: Bytes, filename: Bytes, words: seq<Bytes>)
    requires Excludes(year, Space) && Excludes(filename, Space)
    requires PiecesExclude(words, Space)
    ensures GetUserCommand(Join([CommandCheck, year, filename] + words, Space)) ==
      match Atoi(year)
      case Err(e) => Failed(YearError(e))
      case Ok(v) => Returned(UserCommand(CommandCheck, ToInt32(v), filename, Base64.Encode(Join(words, Space))))
  {
    CommandWordsDiffer();
    var parts := [CommandCheck, year, filename] + words;
    CheckTokens(year, filename, words);
    assert parts[3..] == words;
  }

  lemma CheckTokens(year: Bytes, filename: Bytes, words: seq<Bytes>)
    requires Excludes(year, Space) && Excludes(filename, Space)
    requires PiecesExclude(words, Space)
    ensures Tokens(Join([CommandCheck, year, filename] + words, Space)) == [CommandCheck, year, filename] + words
  {
    CommandWordsDiffer();
    var parts := [CommandCheck, year, filename] + words;
    forall i | 0 <= i < |parts| ensures Excludes(parts[i], Space) {
      if i == 0 {
        assert parts[i] == CommandCheck;
      } else if i == 1 {
        assert parts[i] == year;
      } else if i == 2 {
        assert parts[i] == filename;
      } else {
        assert parts[i] == words[i - 3];
      }
    }
    SplitJoin(parts, Space);
  }

  /** A message of just "/check" or "/check <year>" with a readable year crashes the parser. */
  lemma ShortCheckPanics(year: Bytes)
    requires Excludes(year, Space) && Atoi(year).Ok?
    ensures GetUserCommand(CommandCheck).Panicked?
    ensures GetUserCommand(CommandCheck + [Space] + year).Panicked?
  {
    CommandWordsDiffer();
    SplitJoin([CommandCheck], Space);
    SplitJoin([CommandCheck, year], Space);
    assert Join([CommandCheck, year], Space) == CommandCheck + [Space] + year;
  }

  /** The usage example: "/check 2022 diplom.txt Hello Exa". */
  lemma UsageExample()
    ensures GetUserCommand(Join([
        CommandCheck,
        [0x32, 0x30, 0x32, 0x32],                                        // "2022"
        [0x64, 0x69, 0x70, 0x6C, 0x6F, 0x6D, 0x2E, 0x74, 0x78, 0x74],    // "diplom.txt"
        [0x48, 0x65, 0x6C, 0x6C, 0x6F],                                  // "Hello"
        [0x45, 0x78, 0x61]], Space))                                     // "Exa"
      == Returned(UserCommand(CommandCheck, 2022,
           [0x64, 0x69, 0x70, 0x6C, 0x6F, 0x6D, 0x2E, 0x74, 0x78, 0x74], "SGVsbG8gRXhh"))
  {
    var year: Bytes := [0x32, 0x30, 0x32, 0x32];
    var filename: Bytes := [0x64, 0x69, 0x70, 0x6C, 0x6F, 0x6D, 0x2E, 0x74, 0x78, 0x74];
    var words: seq<Bytes> := [[0x48, 0x65, 0x6C, 0x6C, 0x6F], [0x45, 0x78, 0x61]];
    assert [CommandCheck, year, filename] + words == [CommandCheck, year, filename, words[0], words[1]];
    CheckCommandOf(year, filename, words);
    ExampleYear();
    ExampleWords();
    Base64.HelloExaEncoding();
  }

  lemma ExampleYear()
    ensures Atoi([0x32, 0x30, 0x32, 0x32]) == Ok(2022)
  {
    assert ScanDigits([0x32, 0x30, 0x32, 0x32], 0) == Ok(2022) by {
      assert [0x32, 0x30, 0x32, 0x32][1..] == [0x30, 0x32, 0x32];
    }
  }

  lemma ExampleWords()
    ensures Join([[0x48, 0x65, 0x6C, 0x6C, 0x6F], [0x45, 0x78, 0x61]], Space)
      == [0x48, 0x65, 0x6C, 0x6C, 0x6F, 0x20, 0x45, 0x78, 0x61]
  {
  }
}
