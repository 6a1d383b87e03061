/** The argument tokenizer of the bot (`Bot.parse_args`): bash-style single
    and double quotes, a backslash that escapes the next character, and
    unquoted whitespace between tokens. It never fails. */
module Tokenizer {
  import opened Wrappers
  import opened Chars
  import opened Seqs

  /** The loop state of the tokenizer: a pending escape, the open quote
      character if any, the token in progress and the tokens emitted. */
  datatype Lexer = Lexer(escape: bool, quote: Option<char>, arg: string, args: seq<string>)

  const Start := Lexer(false, None, "", [])

  predicate IsQuote(c: char)
  {
    c == '\'' || c == '"'
  }

  /** One character of input, with the branches in the order the tokenizer tests them. */
  function Step(s: Lexer, c: char): Lexer
  {
    if s.escape then s.(arg := s.arg + [c], escape := false)
    else if c == '\\' then s.(escape := true)
    else if s.quote.Some? then
      if c == s.quote.value then s.(quote := None) else s.(arg := s.arg + [c])
    else if IsQuote(c) then s.(quote := Some(c))
    else if IsSpace(c) then
      if |s.arg| > 0 then s.(args := s.args + [s.arg], arg := "") else s
    else s.(arg := s.arg + [c])
  }

  /** The state after reading all of `t`, starting in `s`. */
  function Run(s: Lexer, t: string): Lexer
  {
    if |t| == 0 then s else Step(Run(s, t[..|t| - 1]), t[|t| - 1])
  }

  /** End of input: a token in progress is emitted, whatever escape or quote is open. */
  function Finish(s: Lexer): seq<string>
  {
    if |s.arg| > 0 then s.args + [s.arg] else s.args
  }

  /** The token list the tokenizer produces for `text`. */
  function Tokenize(text: string): seq<string>
  {
    Finish(Run(Start, text))
  }

  /** `Bot.parse_args`: the character loop of the source. */
  method ParseArgs(text: string) returns (args: seq<string>)
    ensures args == Tokenize(text)
  {
    var escape := false;
    var quote: Option<char> := None;
    args := [];
    var arg := "";
    for i := 0 to |text|
      invariant Lexer(escape, quote, arg, args) == Run(Start, text[..i])
    {
      var character := text[i];
      assert text[..i + 1][..i] == text[..i];
      if escape {
        arg := arg + [character];
        escape := false;
      } else if character == '\\' {
        escape := true;
      } else if quote.Some? {
        if character == quote.value {
          quote := None;
        } else {
          arg := arg + [character];
        }
      } else if character == '\'' || character == '"' {
        quote := Some(character);
      } else if IsSpace(character) {
        if |arg| > 0 {
          args := args + [arg];
          arg := "";
        }
      } else {
        arg := arg + [character];
      }
    }
    assert text[..|text|] == text;
    if |arg| > 0 {
      args := args + [arg];
    }
  }

  // ---------------------------------------------------------------------
  // Running over a concatenation

  lemma {:induction false} RunAppend(s: Lexer, a: string, b: string)
    ensures Run(s, a + b) == Run(Run(s, a), b)
    decreases |b|
  {
    if |b| == 0 {
      assert a + b == a;
    } else {
      assert (a + b)[..|a + b| - 1] == a + b[..|b| - 1];
      RunAppend(s, a, b[..|b| - 1]);
    }
  }

  // ---------------------------------------------------------------------
  // No empty token

  predicate AllNonEmpty(ts: seq<string>)
  {
    forall i :: 0 <= i < |ts| ==> |ts[i]| > 0
  }

  lemma {:induction false} RunKeepsNonEmpty(s: Lexer, t: string)
    requires AllNonEmpty(s.args)
    ensures AllNonEmpty(Run(s, t).args)
    decreases |t|
  {
    if |t| > 0 {
      RunKeepsNonEmpty(s, t[..|t| - 1]);
    }
  }

  /** The tokenizer never emits an empty token, whatever the input. */
  lemma TokensNonEmpty(text: string)
    ensures forall i :: 0 <= i < |Tokenize(text)| ==> |Tokenize(text)[i]| > 0
  {
    RunKeepsNonEmpty(Start, text);
  }

  // ---------------------------------------------------------------------
  // Every input character is kept at most once, in order

  /** Everything the state holds so far, emitted tokens and token in progress. */
  function Kept(s: Lexer): string
  {
    Flatten(s.args) + s.arg
  }

  lemma StepKept(s: Lexer, c: char)
    ensures Kept(Step(s, c)) == Kept(s) || Kept(Step(s, c)) == Kept(s) + [c]
  {
  }

  lemma {:induction false} RunKeptSubseq(t: string)
    ensures IsSubseq(Kept(Run(Start, t)), t)
    decreases |t|
  {
    if |t| > 0 {
      var t', c := t[..|t| - 1], t[|t| - 1];
      assert t == t' + [c];
      RunKeptSubseq(t');
      var before := Run(Start, t');
      StepKept(before, c);
      if Kept(Step(before, c)) == Kept(before) {
        SubseqSnoc(Kept(before), t', c);
      } else {
        SubseqSnocBoth(Kept(before), t', c);
      }
    }
  }

  /** The tokens, concatenated, are a subsequence of the input, so together
      they are never longer than it. */
  lemma TokensSubseq(text: string)
    ensures IsSubseq(Flatten(Tokenize(text)), text)
    ensures |Flatten(Tokenize(text))| <= |text|
  {
    var s := Run(Start, text);
    RunKeptSubseq(text);
    if |s.arg| > 0 {
      FlattenSnoc(s.args, s.arg);
    } else {
      assert Kept(s) == Flatten(s.args);
    }
    SubseqLength(Flatten(Tokenize(text)), text);
  }

  // ---------------------------------------------------------------------
  // Without quotes and backslashes: splitting on whitespace

  /** No character that the tokenizer treats specially. */
  predicate Plain(text: string)
  {
    forall i :: 0 <= i < |text| ==> text[i] != '\\' && !IsQuote(text[i])
  }

  /** The pieces between whitespace characters, every whitespace character
      cutting (empty pieces included), as Python's `str.split(sep)` does. */
  function SplitAtSpaces(text: string): (r: seq<string>)
    ensures |r| >= 1
  {
    if |text| == 0 then [""]
    else
      var p := SplitAtSpaces(text[..|text| - 1]);
      var c := text[|text| - 1];
      if IsSpace(c) then p + [""] else p[..|p| - 1] + [p[|p| - 1] + [c]]
  }

  /** The non-empty strings of `ss`, in order. */
  function NonEmpty(ss: seq<string>): seq<string>
  {
    if |ss| == 0 then []
    else NonEmpty(ss[..|ss| - 1]) + (if |ss[|ss| - 1]| > 0 then [ss[|ss| - 1]] else [])
  }

  /** Python's `str.split()` without a separator: the words between runs of whitespace. */
  function Words(text: string): seq<string>
  {
    NonEmpty(SplitAtSpaces(text))
  }

  lemma {:induction false} PlainRun(t: string)
    requires Plain(t)
    ensures var p := SplitAtSpaces(t);
      Run(Start, t) == Lexer(false, None, p[|p| - 1], NonEmpty(p[..|p| - 1]))
    decreases |t|
  {
    if |t| > 0 {
      var t', c := t[..|t| - 1], t[|t| - 1];
      assert Plain(t') by {
        forall i | 0 <= i < |t'| ensures t'[i] != '\\' && !IsQuote(t'[i]) {
          assert t'[i] == t[i];
        }
      }
      PlainRun(t');
      var p := SplitAtSpaces(t');
      var q := SplitAtSpaces(t);
      if IsSpace(c) {
        assert q[..|q| - 1] == p;
        assert p == p[..|p| - 1] + [p[|p| - 1]];
      } else {
        assert q[..|q| - 1] == p[..|p| - 1];
      }
    }
  }

  /** On text without backslashes and quotes the tokenizer is `str.split()`. */
  lemma PlainIsWords(text: string)
    requires Plain(text)
    ensures Tokenize(text) == Words(text)
  {
    PlainRun(text);
    var p := SplitAtSpaces(text);
    assert p == p[..|p| - 1] + [p[|p| - 1]];
  }

  /** A word: non-empty, no whitespace, nothing the tokenizer treats specially. */
  predicate IsWord(w: string)
  {
    |w| > 0 && Plain(w) && NoSpace(w)
  }

  /** Each word preceded by one space, as a command's argument string is. */
  function Spaced(ws: seq<string>): string
  {
    if |ws| == 0 then "" else Spaced(ws[..|ws| - 1]) + " " + ws[|ws| - 1]
  }

  lemma {:induction false} WordRun(s: Lexer, w: string)
    requires !s.escape && s.quote.None? && Plain(w) && NoSpace(w)
    ensures Run(s, w) == s.(arg := s.arg + w)
    decreases |w|
  {
    if |w| > 0 {
      var w' := w[..|w| - 1];
      assert Plain(w') && NoSpace(w') by {
        forall i | 0 <= i < |w'| ensures w'[i] == w[i] {}
      }
      WordRun(s, w');
      assert s.arg + w == s.arg + w' + [w[|w| - 1]];
    } else {
      assert s.arg + w == s.arg;
    }
  }

  /** Unquoted, unescaped whitespace emits the token in progress, if any. */
  lemma SpaceFlushes(s: Lexer)
    requires !s.escape && s.quote.None?
    ensures Run(s, " ") == s.(arg := "", args := Finish(s))
  {
  }

  lemma {:induction false} SpacedRun(ws: seq<string>)
    requires forall i :: 0 <= i < |ws| ==> IsWord(ws[i])
    ensures Run(Start, Spaced(ws)) ==
      if |ws| == 0 then Start else Lexer(false, None, ws[|ws| - 1], ws[..|ws| - 1])
    decreases |ws|
  {
    if |ws| > 0 {
      var init, w := ws[..|ws| - 1], ws[|ws| - 1];
      assert forall i :: 0 <= i < |init| ==> init[i] == ws[i];
      SpacedRun(init);
      var before := Run(Start, Spaced(init));
      SpaceFlushes(before);
      var flushed := Lexer(false, None, "", init);
      assert Finish(before) == init by {
        if |init| > 0 {
          assert init == init[..|init| - 1] + [init[|init| - 1]];
        }
      }
      assert Run(before, " ") == flushed;
      RunAppend(Start, Spaced(init), " ");
      assert IsWord(w);
      WordRun(flushed, w);
      assert Spaced(ws) == (Spaced(init) + " ") + w;
      RunAppend(Start, Spaced(init) + " ", w);
      assert "" + w == w;
    }
  }

  /** Tokenizing words joined by single spaces gives the words back. */
  lemma {:induction false} SpacedWords(ws: seq<string>)
    requires forall i :: 0 <= i < |ws| ==> IsWord(ws[i])
    ensures Tokenize(Spaced(ws)) == ws
  {
    SpacedRun(ws);
    var s := Run(Start, Spaced(ws));
    if |ws| > 0 {
      assert |s.arg| > 0;
      assert Finish(s) == ws[..|ws| - 1] + [ws[|ws| - 1]];
      assert ws == ws[..|ws| - 1] + [ws[|ws| - 1]];
    } else {
      assert Finish(s) == [];
    }
  }

  // ---------------------------------------------------------------------
  // Quotes and escapes

  /** `w` holds neither the quote `q` nor a backslash. */
  predicate Unquoting(w: string, q: char)
  {
    forall i :: 0 <= i < |w| ==> w[i] != q && w[i] != '\\'
  }

  /** Inside an open quote every character but the closing quote and a
      backslash, whitespace included, joins the token in progress. */
  lemma {:induction false} QuotedRun(s: Lexer, w: string)
    requires !s.escape && s.quote.Some? && Unquoting(w, s.quote.value)
    ensures Run(s, w) == s.(arg := s.arg + w)
    decreases |w|
  {
    if |w| > 0 {
      var w' := w[..|w| - 1];
      assert Unquoting(w', s.quote.value) by {
        forall i | 0 <= i < |w'| ensures w'[i] != s.quote.value && w'[i] != '\\' {
          assert w'[i] == w[i];
        }
      }
      QuotedRun(s, w');
      assert s.arg + w == s.arg + w' + [w[|w| - 1]];
    } else {
      assert s.arg + w == s.arg;
    }
  }

  /** A quoted segment adds its contents to the token in progress and its
      two quote characters to nothing. */
  lemma QuotedSegment(s: Lexer, q: char, w: string)
    requires !s.escape && s.quote.None? && IsQuote(q) && Unquoting(w, q)
    ensures Run(s, [q] + w + [q]) == s.(arg := s.arg + w)
  {
    var inQuote := Step(s, q);
    assert Run(s, [q]) == inQuote by {
      assert [q][..0] == [];
    }
    RunAppend(s, [q], w);
    QuotedRun(inQuote, w);
    RunAppend(s, [q] + w, [q]);
    assert Run(Run(s, [q] + w), [q]) == Step(Run(s, [q] + w), q) by {
      assert [q][..0] == [];
    }
  }

  /** A backslash adds the next character, whitespace or quote included, to the token. */
  lemma EscapedChar(s: Lexer, c: char)
    requires !s.escape
    ensures Run(s, ['\\', c]) == s.(arg := s.arg + [c])
  {
    assert ['\\', c][..1] == ['\\'];
    assert ['\\'][..0] == [];
    assert Run(s, ['\\']) == s.(escape := true);
  }

  /** An unterminated quote is not an error: its contents become the last token. */
  lemma UnterminatedQuote(q: char, w: string)
    requires IsQuote(q) && Unquoting(w, q)
    ensures Tokenize([q] + w) == if |w| > 0 then [w] else []
  {
    var inQuote := Step(Start, q);
    assert Run(Start, [q]) == inQuote by {
      assert [q][..0] == [];
    }
    RunAppend(Start, [q], w);
    QuotedRun(inQuote, w);
    assert "" + w == w;
  }

  /** Wherever an unclosed quote opens, the text after it joins the token in
      progress, and that token is the last one emitted (if non-empty). */
  lemma UnterminatedQuoteAfter(p: string, q: char, w: string)
    requires !Run(Start, p).escape && Run(Start, p).quote.None?
    requires IsQuote(q) && Unquoting(w, q)
    ensures Tokenize(p + [q] + w) == Finish(Run(Start, p).(arg := Run(Start, p).arg + w))
  {
    var s := Run(Start, p);
    var open := s.(quote := Some(q));
    assert Run(s, [q]) == open by {
      assert [q][..0] == [];
    }
    assert Run(Start, p + [q]) == open by {
      RunAppend(Start, p, [q]);
    }
    assert Run(open, w) == open.(arg := s.arg + w) by {
      QuotedRun(open, w);
    }
    RunAppend(Start, p + [q], w);
  }

  /** A trailing backslash that nothing escapes is not an error: it is dropped. */
  lemma TrailingBackslash(text: string)
    requires !Run(Start, text).escape
    ensures Tokenize(text + ['\\']) == Tokenize(text)
  {
  }

  // ---------------------------------------------------------------------
  // Examples
  //
  // Each example takes its input as a parameter fixed by `requires`: with the
  // literal written in the `ensures`, Dafny would unroll `Run` over the whole
  // string. The proofs instead go through the lemmas above, piece by piece.

  lemma ExamplePlain(text: string)
    requires text == "a b c"
    ensures Tokenize(text) == ["a", "b", "c"]
  {
    assert text == "a" + " " + "b" + " " + "c";
    var s1 := Lexer(false, None, "a", []);
    var s2 := Lexer(false, None, "", ["a"]);
    var s3 := Lexer(false, None, "b", ["a"]);
    var s4 := Lexer(false, None, "", ["a", "b"]);
    var s5 := Lexer(false, None, "c", ["a", "b"]);
    assert Run(Start, "a") == s1 by {
      WordRun(Start, "a");
      assert "" + "a" == "a";
    }
    assert Run(Start, "a" + " ") == s2 by {
      RunAppend(Start, "a", " ");
      SpaceFlushes(s1);
    }
    assert Run(Start, "a" + " " + "b") == s3 by {
      RunAppend(Start, "a" + " ", "b");
      WordRun(s2, "b");
      assert "" + "b" == "b";
    }
    assert Run(Start, "a" + " " + "b" + " ") == s4 by {
      RunAppend(Start, "a" + " " + "b", " ");
      SpaceFlushes(s3);
    }
    assert Run(Start, text) == s5 by {
      RunAppend(Start, "a" + " " + "b" + " ", "c");
      WordRun(s4, "c");
      assert "" + "c" == "c";
    }
  }

  lemma ExampleQuoted(text: string)
    requires text == "\"a b\" c"
    ensures Tokenize(text) == ["a b", "c"]
  {
    var quoted := ['"'] + "a b" + ['"'];
    assert text == quoted + " " + "c";
    var s1 := Lexer(false, None, "a b", []);
    var s2 := Lexer(false, None, "", ["a b"]);
    var s3 := Lexer(false, None, "c", ["a b"]);
    assert Run(Start, quoted) == s1 by {
      QuotedSegment(Start, '"', "a b");
      assert "" + "a b" == "a b";
    }
    assert Run(Start, quoted + " ") == s2 by {
      RunAppend(Start, quoted, " ");
      SpaceFlushes(s1);
    }
    assert Run(Start, text) == s3 by {
      RunAppend(Start, quoted + " ", "c");
      WordRun(s2, "c");
      assert "" + "c" == "c";
    }
  }

  lemma ExampleEscaped(text: string)
    requires text == "a\\ b c"
    ensures Tokenize(text) == ["a b", "c"]
  {
    var escaped := ['\\', ' '];
    assert text == "a" + escaped + "b" + " " + "c";
    var s1 := Lexer(false, None, "a", []);
    var s2 := Lexer(false, None, "a ", []);
    var s3 := Lexer(false, None, "a b", []);
    var s4 := Lexer(false, None, "", ["a b"]);
    var s5 := Lexer(false, None, "c", ["a b"]);
    assert Run(Start, "a") == s1 by {
      WordRun(Start, "a");
      assert "" + "a" == "a";
    }
    assert Run(Start, "a" + escaped) == s2 by {
      RunAppend(Start, "a", escaped);
      EscapedChar(s1, ' ');
      assert "a" + [' '] == "a ";
    }
    assert Run(Start, "a" + escaped + "b") == s3 by {
      RunAppend(Start, "a" + escaped, "b");
      WordRun(s2, "b");
      assert "a " + "b" == "a b";
    }
    assert Run(Start, "a" + escaped + "b" + " ") == s4 by {
      RunAppend(Start, "a" + escaped + "b", " ");
      SpaceFlushes(s3);
    }
    assert Run(Start, text) == s5 by {
      RunAppend(Start, "a" + escaped + "b" + " ", "c");
      WordRun(s4, "c");
      assert "" + "c" == "c";
    }
  }

  lemma ExampleUnterminated(text: string)
    requires text == "\"unterminated"
    ensures Tokenize(text) == ["unterminated"]
  {
    UnterminatedQuote('"', "unterminated");
    assert text == ['"'] + "unterminated";
  }
}
