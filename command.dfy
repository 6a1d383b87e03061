/** Command recognition (`Bot.parse_message`): a full match of `!(\S+)([\S\s]*)`
    against the message content, written as an explicit prefix scan. */
module CommandParser {
  import opened Wrappers
  import opened Chars
  import opened Tokenizer

  /** The length of the longest prefix of `s` that holds no whitespace:
      what the greedy `\S+` consumes. */
  function NonSpaceRun(s: string): (n: nat)
    ensures n <= |s|
    ensures NoSpace(s[..n])
    ensures n == |s| || IsSpace(s[n])
  {
    if |s| == 0 || IsSpace(s[0]) then 0 else 1 + NonSpaceRun(s[1..])
  }

  /** `content` is `!`, then the non-empty, whitespace-free command name,
      then an argument string that is empty or starts with whitespace. */
  predicate IsCommandSplit(content: string, command: string, argstr: string)
  {
    && content == "!" + command + argstr
    && |command| > 0
    && NoSpace(command)
    && (|argstr| == 0 || IsSpace(argstr[0]))
  }

  /** The content matches the command pattern: `!` followed by a non-whitespace character. */
  predicate IsCommand(content: string)
  {
    |content| >= 2 && content[0] == '!' && !IsSpace(content[1])
  }

  /** The two groups of the match: the command name and the raw argument string. */
  function SplitCommand(content: string): (r: Option<(string, string)>)
    ensures r.None? <==> !IsCommand(content)
    ensures r.Some? ==> IsCommandSplit(content, r.value.0, r.value.1)
  {
    if |content| == 0 || content[0] != '!' then None
    else
      var n := NonSpaceRun(content[1..]);
      if n == 0 then None
      else
        assert content == "!" + content[1..][..n] + content[1 + n..];
        Some((content[1..][..n], content[1 + n..]))
  }

  /** There is only one way to split a command: the greedy one. */
  lemma SplitUnique(content: string, command: string, argstr: string)
    requires IsCommandSplit(content, command, argstr)
    ensures SplitCommand(content) == Some((command, argstr))
  {
    var s := content[1..];
    assert s == command + argstr;
    var n := NonSpaceRun(s);
    assert forall i :: 0 <= i < |command| ==> s[i] == command[i];
    assert |argstr| > 0 ==> s[|command|] == argstr[0];
    assert s[..n] == command;
    assert content[1 + n..] == argstr;
  }

  /** `Bot.parse_message`: `None` for a non-command, otherwise the command
      name and the tokenized argument string. */
  function ParseMessage(content: string): (r: Option<(string, seq<string>)>)
    ensures r.None? <==> !IsCommand(content)
    ensures r.Some? ==>
      exists argstr :: IsCommandSplit(content, r.value.0, argstr) && r.value.1 == Tokenize(argstr)
  {
    match SplitCommand(content)
    case None => None
    case Some((command, argstr)) =>
      assert IsCommandSplit(content, command, argstr);
      Some((command, Tokenize(argstr)))
  }

  /** Whenever `content` splits into a command and an argument string,
      the parser returns exactly that command and the tokens of that string. */
  lemma ParseMessageOfSplit(content: string, command: string, argstr: string)
    requires IsCommandSplit(content, command, argstr)
    ensures ParseMessage(content) == Some((command, Tokenize(argstr)))
  {
    SplitUnique(content, command, argstr);
  }

  lemma ExamplePing()
    ensures ParseMessage("!ping") == Some(("ping", []))
  {
    assert "!ping" == "!" + "ping" + "";
    ParseMessageOfSplit("!ping", "ping", "");
    assert Run(Start, "") == Start;
  }

  lemma ExampleNotACommand()
    ensures ParseMessage("just talking") == None
  {
  }
}
