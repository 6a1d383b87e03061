# yaboli bot: command recognition and dispatch, in Dafny

This project models the command core of the `yaboli` chat-bot framework
(`yaboli/bot.py`): how the text of a chat message becomes a command name and
an argument list, how arguments are classified into flags, keyword options
and positional arguments, how handlers are filed in the registry, and which
handler groups a message triggers, with which arguments.

Modules, one per component of `Bot`:

- `Wrappers`: the `Option` type that stands for Python's `None`.
- `Chars`: `IsSpace`, the characters for which Python's `str.isspace` holds.
  The regular expression class `\s` matches the same characters, so the command
  parser and the tokenizer share this one predicate.
- `Seqs`: subsequences (`IsSubseq`) and concatenation (`Flatten`).
- `Tokenizer`: `parse_args`. The loop state (`escape`, `quote`, `arg`, `args`)
  is the datatype `Lexer`. `Step` is one loop iteration, `Run` folds it over a
  string, and `Tokenize` adds the end-of-input flush. `ParseArgs` is the loop
  itself, proved equal to `Tokenize`. The properties are lemmas about `Tokenize`.
- `CommandParser`: `parse_message`. The full match of `!(\S+)([\S\s]*)` is an
  explicit scan: `NonSpaceRun` is the greedy `\S+`. `ParseMessage` returns an
  `Option`.
- `FlagClassifier`: `parse_flags`. The method `ParseFlags` keeps the loop. It is
  proved against three specification functions, `ShortFlags`, `Positional` and
  `Keywords`, and the lemmas are about those functions.
- `Registry`: the `Callbacks` registry, a class holding a map from
  `(command, specific)` to a sequence of handlers. It sits inside a `Bot` class
  with `RegisterCallback` (`specific` defaults to `true`) and
  `RegisterDefaultCallbacks`.
- `Dispatch`: the choice of handler groups made by `on_send`. `OnSend` is a pure
  function of the message content, the bot's nick and the similarity matcher.
  It returns the group invocations `(key, args)` in the order the source
  creates them.

Three behaviours of the code worth noting:

- `parse_flags` collects the flags in a string, concatenated in order, and
  repeated characters are kept. It is not a set.
- At end of input, `parse_args` emits the token in progress only when it is
  non-empty. So `''` or `""` alone produce no token. Unlike bash, a quoted
  empty string never becomes an empty argument.
- In `parse_args` a backslash that is itself escaped is kept (`\\` gives
  `\`), as in bash. Only an unescaped trailing backslash is dropped.

## Model

| member | source | states |
|---|---|---|
| `Tokenizer.ParseArgs` | yaboli/bot.py:72-113 | the character loop (escape first, then backslash, then open quote, then opening quote, then whitespace, then any other character, then the final flush) computes exactly `Tokenize(text)`; it has no precondition, so it is total on every string |
| `Tokenizer.TokensNonEmpty` | yaboli/bot.py:100-111 | no token produced is ever empty, for every input |
| `Tokenizer.TokensSubseq` | yaboli/bot.py:87-105 | the tokens, concatenated, form a subsequence of the input: each input character is kept at most once and in order, so the total length is at most the input length |
| `Tokenizer.PlainIsWords` | yaboli/bot.py:98-111 | on input with no backslash and no quote character, the tokenizer equals `str.split()`: cut at every whitespace character and drop the empty pieces |
| `Tokenizer.SpacedWords` | yaboli/bot.py:98-111 | words without whitespace, quotes or backslashes, each preceded by a space, tokenize back to exactly those words |
| `Tokenizer.QuotedRun` | yaboli/bot.py:93-97 | inside an open quote, every character other than the closing quote and a backslash, whitespace included, is added to the token in progress |
| `Tokenizer.QuotedSegment` | yaboli/bot.py:93-99 | a quoted segment `q w q` adds `w` to the token in progress and drops both quote characters |
| `Tokenizer.EscapedChar` | yaboli/bot.py:88-92 | a backslash followed by any character adds that character, even whitespace, to the token and drops the backslash |
| `Tokenizer.UnterminatedQuote` | yaboli/bot.py:93-99 | an input that opens a quote at its start and never closes it (no backslash after it) is not an error: the text after the quote is the only token, or there is none if that text is empty |
| `Tokenizer.UnterminatedQuoteAfter` | yaboli/bot.py:93-99 | after any prefix that leaves no escape or quote open, an unclosed quote followed by text without that quote or a backslash is not an error: the text joins the token in progress, which is emitted last if non-empty |
| `Tokenizer.TrailingBackslash` | yaboli/bot.py:88-92 | a trailing backslash that is not itself escaped is not an error: it is dropped and changes nothing |
| `Tokenizer.ExamplePlain` | yaboli/bot.py:72-113 | `a b c` gives `["a","b","c"]` |
| `Tokenizer.ExampleQuoted` | yaboli/bot.py:72-113 | `"a b" c` gives `["a b","c"]` |
| `Tokenizer.ExampleEscaped` | yaboli/bot.py:72-113 | `a\ b c` gives `["a b","c"]` |
| `Tokenizer.ExampleUnterminated` | yaboli/bot.py:72-113 | `"unterminated` gives `["unterminated"]` |
| `CommandParser.NonSpaceRun` | yaboli/bot.py:17 | the greedy `\S+`: the result is the length of the longest prefix without whitespace, since the prefix has none and the next character, if any, is whitespace |
| `CommandParser.SplitCommand` | yaboli/bot.py:62-67 | the match fails exactly when the content is not `!` followed by a non-whitespace character; otherwise `"!" + command + argstr == content`, the command is non-empty without whitespace, and `argstr` is empty or starts with whitespace |
| `CommandParser.SplitUnique` | yaboli/bot.py:17 | every split of the content meeting those conditions is the one the match returns, so the command name is the longest possible |
| `CommandParser.ParseMessage` | yaboli/bot.py:55-70 | `None` exactly for a non-command; otherwise the command name and the tokens of an argument string that, with `!` and the name, rebuilds the content |
| `CommandParser.ParseMessageOfSplit` | yaboli/bot.py:62-70 | for any valid split into command and argument string, the parser returns that command and the tokens of that string |
| `CommandParser.ExamplePing` | yaboli/bot.py:55-70 | `!ping` gives `("ping", [])`, a command with empty arguments rather than `None` |
| `CommandParser.ExampleNotACommand` | yaboli/bot.py:62-64 | `just talking` gives `None` |
| `FlagClassifier.SplitAtFirst` | yaboli/bot.py:125 | `split("=", maxsplit=1)`: the part before and the part after the first `=`, rebuilding the input around it |
| `FlagClassifier.LongOption` | yaboli/bot.py:121-128 | a long option's key never contains `=`; its value is absent exactly when there is no `=`, and then the key is the whole body; otherwise key, `=` and value rebuild the body |
| `FlagClassifier.ParseFlags` | yaboli/bot.py:115-137 | the loop computes the flag string `ShortFlags`, the positional list `Positional` and the keyword map `Keywords` of its input |
| `FlagClassifier.PositionalOrder` | yaboli/bot.py:133-135 | the positional arguments form a subsequence of the input (original order kept), none starts with `-`, and every token not starting with `-` appears among them exactly as many times as in the input, so the list is exactly the ordered filter |
| `FlagClassifier.ShortFlagsFrom` | yaboli/bot.py:129-132 | a character is in the flag string exactly when it follows the `-` of a token that starts with `-` but not `--`, so a lone `-` adds nothing |
| `FlagClassifier.KeywordHasSource` | yaboli/bot.py:121-128 | every key of the keyword map is the key of some `--` token |
| `FlagClassifier.KeywordLastWins` | yaboli/bot.py:121-128 | the value under a key is that of the last `--` token with that key, so later duplicates overwrite earlier ones |
| `FlagClassifier.ExampleClassify` | yaboli/bot.py:115-137 | `["-rw","--foo=bar","baz"]` gives flags `rw`, keywords `{foo: bar}` and positional `["baz"]` |
| `Registry.Added` | yaboli/bot.py:33 | adding a handler appends it to its key's slot, creating the slot if needed, and leaves every other slot unchanged |
| `Registry.AddedKeepsEarlier` | yaboli/bot.py:33 | registering never overwrites: each slot's old handlers are a prefix of its new ones, and only the target slot grows, by one |
| `Registry.Callbacks.Add` | yaboli/bot.py:33 | the registry becomes `Added(old registry, key, handler)` |
| `Registry.Bot.RegisterCallback` | yaboli/bot.py:32-33 | files the handler under `(event, specific)`, with `specific` defaulting to true |
| `Registry.Bot.RegisterDefaultCallbacks` | yaboli/bot.py:143-149 | appends the six default registrations in source order; at each key this adds exactly `DefaultHandlers(key)` |
| `Registry.WithDefaultsLookup` | yaboli/bot.py:143-149 | the six default registrations, composed, add exactly `DefaultHandlers(key)` at every key |
| `Registry.DefaultCoverage` | yaboli/bot.py:143-149 | after the defaults, `ping` and `help` have a handler under both true and false; `uptime` and `kill` only under true; no other key has one, and no key has more than one |
| `Registry.Bot.constructor` | yaboli/bot.py:19-25 | a new bot keeps its nick and has a fresh registry that holds exactly the default handlers |
| `Dispatch.OnSend` | yaboli/bot.py:35-53 | no group for a non-command; otherwise first the generic group `(command, False)` with the unmodified args; then the specific group `(command, True)` with `args[1:]` exactly when the first argument starts with `@` and the rest of it is `similar` to the nick; never more than two |
| `Dispatch.SpecificOnlyWhenMentioned` | yaboli/bot.py:46-51 | a specific invocation is always the second one: the generic group of the same command ran too, its first argument is the mention, and the specific group got the other arguments |
| `Dispatch.ExamplePing` | yaboli/bot.py:36-43 | `!ping` triggers only the generic `ping` group, with no arguments |
| `Dispatch.ExampleMentioned` | yaboli/bot.py:41-51 | `!echo @name hello`, with `name` similar to the nick, triggers the generic `echo` group with `["@name","hello"]` and the specific one with `["hello"]` |
| `Dispatch.ExampleOtherMentioned` | yaboli/bot.py:41-49 | when `name` is not similar to the nick, only the generic group is triggered, with the mention still in its arguments |

## Left out

- asyncio scheduling in `on_send` (`ensure_future`, `await`): the model says which groups are invoked and with which arguments. It lists them in the order their invocations are created (generic first). It does not model interleaving or completion order.
- `similar` (from `yaboli/utils.py`, which is not part of this model): a parameter of type `(string, string) -> bool` with no assumed behaviour.
- `Callbacks.call` and the rest of `yaboli/callbacks.py`, which are not part of this model. The registry is a map from `(string, bool)` to a sequence of handlers, and `add` appends. Running the handlers of a group is not modelled.
- The demonstration handlers `command_ping`, `command_help`, `command_help_general`, `command_uptime` and `command_kill`: they send to the network, read the clock, format times, log and stop the bot. Only their registration is modelled, as the `Handler` values.
- `Controller`, the room transport, `start_time` and the settings fields `general_help`, `killable` and `kill_message`: I/O and configuration. The bot keeps only its `nick`.
- `SPECIFIC_RE`: declared but never used.
- `Chars.IsSpace`: lists the whitespace of Python's `str.isspace` as fixed code points. It does not follow the Unicode database version of a particular Python release. A Python `str` may also hold lone surrogates, which a Dafny `char` cannot.
- `FlagClassifier.Keywords`: `parse_flags` returns a Python dict, which keeps insertion order; a repeated `--k` keeps the position of its first occurrence. A Dafny `map` has no order, so the model does not capture the order of the keyword arguments. Nothing in `yaboli/bot.py` iterates over them.
