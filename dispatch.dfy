/** Which handler groups `Bot.on_send` invokes for a message, and with which
    arguments. The asyncio scheduling is not modelled: the groups are listed
    in the order their invocations are created. */
module Dispatch {
  import opened Wrappers
  import opened Tokenizer
  import opened CommandParser
  import opened Registry

  /** One call of a handler group: every handler at `key` receives `args`. */
  datatype Invocation = Invocation(key: CallbackKey, args: seq<string>)

  /** The first argument mentions the bot: its first character is `@` and the
      rest is similar to the bot's nick under the matcher `similar`. */
  predicate Mentions(mention: string, nick: string, similar: (string, string) -> bool)
  {
    |mention| >= 1 && mention[0] == '@' && similar(mention[1..], nick)
  }

  /** `Bot.on_send`: nothing for a non-command; otherwise the generic group of
      the command with all arguments, then, when the first argument mentions
      the bot, the specific group with the remaining arguments. */
  function OnSend(content: string, nick: string, similar: (string, string) -> bool): (r: seq<Invocation>)
    ensures !IsCommand(content) ==> r == []
    ensures IsCommand(content) ==>
      var (command, args) := ParseMessage(content).value;
      && 1 <= |r| <= 2
      && r[0] == Invocation((command, false), args)
      && (|r| == 2 <==> |args| > 0 && Mentions(args[0], nick, similar))
      && (|r| == 2 ==> r[1] == Invocation((command, true), args[1..]))
  {
    match ParseMessage(content)
    case None => []
    case Some((command, args)) =>
      var general := Invocation((command, false), args);
      if |args| > 0 then
        var mention := args[0];
        var rest := args[1..];
        if Mentions(mention, nick, similar) then
          [general, Invocation((command, true), rest)]
        else [general]
      else [general]
  }

  /** The specific group is reached only through a mention: its arguments are
      the message's tokens without the mention, and the generic group, which
      always runs, receives the mention as its first argument. */
  lemma SpecificOnlyWhenMentioned(content: string, nick: string, similar: (string, string) -> bool, i: nat)
    requires i < |OnSend(content, nick, similar)| && OnSend(content, nick, similar)[i].key.1
    ensures i == 1
    ensures var generic := OnSend(content, nick, similar)[0];
      && !generic.key.1 && generic.key.0 == OnSend(content, nick, similar)[1].key.0
      && |generic.args| > 0
      && Mentions(generic.args[0], nick, similar)
      && OnSend(content, nick, similar)[1].args == generic.args[1..]
  {
  }

  /** `!ping`: only the generic `ping` group, with no arguments. */
  lemma ExamplePing(nick: string, similar: (string, string) -> bool)
    ensures OnSend("!ping", nick, similar) == [Invocation(("ping", false), [])]
  {
    CommandParser.ExamplePing();
  }

  /** A message that mentions the bot reaches both groups; the specific one
      does not see the mention. */
  lemma ExampleMentioned(name: string, nick: string, similar: (string, string) -> bool)
    requires IsWord(name) && similar(name, nick)
    ensures OnSend("!echo @" + name + " hello", nick, similar) == [
      Invocation(("echo", false), ["@" + name, "hello"]),
      Invocation(("echo", true), ["hello"])]
  {
    EchoParse(name);
    var args := ["@" + name, "hello"];
    assert args[0][1..] == name;
  }

  /** A message that mentions someone else reaches only the generic group,
      with the mention left in its arguments. */
  lemma ExampleOtherMentioned(name: string, nick: string, similar: (string, string) -> bool)
    requires IsWord(name) && !similar(name, nick)
    ensures OnSend("!echo @" + name + " hello", nick, similar) == [
      Invocation(("echo", false), ["@" + name, "hello"])]
  {
    EchoParse(name);
    var args := ["@" + name, "hello"];
    assert args[0][1..] == name;
  }

  lemma EchoParse(name: string)
    requires IsWord(name)
    ensures ParseMessage("!echo @" + name + " hello") == Some(("echo", ["@" + name, "hello"]))
  {
    var mention := "@" + name;
    assert IsWord(mention) by {
      forall i | 1 <= i < |mention| ensures mention[i] == name[i - 1] {}
    }
    assert IsWord("hello");
    var ws := [mention, "hello"];
    assert Spaced(ws[..1]) == " " + mention by {
      assert Spaced(ws[..1][..0]) == "";
    }
    assert Spaced(ws) == " " + mention + " " + "hello";
    SpacedWords(ws);
    assert "!echo @" + name + " hello" == "!" + "echo" + Spaced(ws);
    ParseMessageOfSplit("!echo @" + name + " hello", "echo", Spaced(ws));
  }
}
