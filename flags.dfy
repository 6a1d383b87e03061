/** The flag classifier (`Bot.parse_flags`): long options `--key=value` and
    `--key`, stacked short flags `-xyz`, and positional arguments. */
module FlagClassifier {
  import opened Wrappers
  import opened Seqs

  /** The token starts with `--` (`arg[:2] == "--"`). */
  predicate IsLong(t: string)
  {
    |t| >= 2 && t[..2] == "--"
  }

  /** The token starts with `-` (`arg[:1] == "-"`). */
  predicate IsDashed(t: string)
  {
    |t| >= 1 && t[0] == '-'
  }

  /** A token of stacked short flags: one leading `-`, not two. */
  predicate IsShort(t: string)
  {
    IsDashed(t) && !IsLong(t)
  }

  /** The parts before and after the first `c` in `s`: `s.split(c, maxsplit=1)`
      when `c` occurs in `s`. */
  function SplitAtFirst(s: string, c: char): (r: (string, string))
    requires c in s
    ensures r.0 + [c] + r.1 == s
    ensures c !in r.0
  {
    if s[0] == c then
      assert s == [] + [c] + s[1..];
      ([], s[1..])
    else
      var r := SplitAtFirst(s[1..], c);
      assert s == [s[0]] + s[1..];
      ([s[0]] + r.0, r.1)
  }

  /** The key and the value of a long option with its `--` removed: split at
      the first `=`, or no value at all when there is no `=`. */
  function LongOption(body: string): (r: (string, Option<string>))
    ensures '=' !in r.0
    ensures r.1.None? <==> '=' !in body
    ensures r.1.None? ==> r.0 == body
    ensures r.1.Some? ==> r.0 + "=" + r.1.value == body
  {
    if '=' in body then
      var kv := SplitAtFirst(body, '=');
      (kv.0, Some(kv.1))
    else (body, None)
  }

  /** The tokens that do not start with `-`, in order. */
  function Positional(xs: seq<string>): seq<string>
  {
    if |xs| == 0 then []
    else Positional(xs[..|xs| - 1]) + (if IsDashed(xs[|xs| - 1]) then [] else [xs[|xs| - 1]])
  }

  /** The characters after the `-` of every short-flag token, in order. */
  function ShortFlags(xs: seq<string>): string
  {
    if |xs| == 0 then ""
    else ShortFlags(xs[..|xs| - 1]) + (if IsShort(xs[|xs| - 1]) then xs[|xs| - 1][1..] else "")
  }

  /** The long options, a later one with the same key replacing an earlier one. */
  function Keywords(xs: seq<string>): map<string, Option<string>>
  {
    if |xs| == 0 then map[]
    else
      var last := xs[|xs| - 1];
      if IsLong(last) then
        var kv := LongOption(last[2..]);
        Keywords(xs[..|xs| - 1])[kv.0 := kv.1]
      else Keywords(xs[..|xs| - 1])
  }

  /** `Bot.parse_flags`: one pass over the tokens. */
  method ParseFlags(arglist: seq<string>)
    returns (flags: string, args: seq<string>, kwargs: map<string, Option<string>>)
    ensures flags == ShortFlags(arglist)
    ensures args == Positional(arglist)
    ensures kwargs == Keywords(arglist)
  {
    flags := "";
    args := [];
    kwargs := map[];
    for n := 0 to |arglist|
      invariant flags == ShortFlags(arglist[..n])
      invariant args == Positional(arglist[..n])
      invariant kwargs == Keywords(arglist[..n])
    {
      var arg := arglist[n];
      assert arglist[..n + 1][..n] == arglist[..n];
      if |arg| >= 2 && arg[..2] == "--" {
        arg := arg[2..];
        if '=' in arg {
          var s := SplitAtFirst(arg, '=');
          kwargs := kwargs[s.0 := Some(s.1)];
        } else {
          kwargs := kwargs[arg := None];
        }
      } else if |arg| >= 1 && arg[0] == '-' {
        arg := arg[1..];
        flags := flags + arg;
      } else {
        args := args + [arg];
      }
    }
    assert arglist[..|arglist|] == arglist;
  }

  // ---------------------------------------------------------------------
  // Positional arguments

  /** The positional arguments are exactly the undashed tokens, in their
      original order, each as often as in the input. */
  lemma PositionalOrder(xs: seq<string>)
    ensures IsSubseq(Positional(xs), xs)
    ensures forall i :: 0 <= i < |Positional(xs)| ==> !IsDashed(Positional(xs)[i])
    ensures forall i :: 0 <= i < |xs| && !IsDashed(xs[i]) ==> xs[i] in Positional(xs)
    ensures forall t :: !IsDashed(t) ==> multiset(Positional(xs))[t] == multiset(xs)[t]
  {
    PositionalFilter(xs);
    PositionalCount(xs);
  }

  /** The whole filter property, one clause per lemma below. */
  lemma PositionalFilter(xs: seq<string>)
    ensures IsSubseq(Positional(xs), xs)
    ensures forall i :: 0 <= i < |Positional(xs)| ==> !IsDashed(Positional(xs)[i])
    ensures forall i :: 0 <= i < |xs| && !IsDashed(xs[i]) ==> xs[i] in Positional(xs)
  {
    PositionalSubseq(xs);
    PositionalUndashed(xs);
    PositionalKeeps(xs);
  }

  /** The positional arguments keep the input's order. */
  lemma {:induction false} PositionalSubseq(xs: seq<string>)
    ensures IsSubseq(Positional(xs), xs)
    decreases |xs|
  {
    if |xs| > 0 {
      var init, last := xs[..|xs| - 1], xs[|xs| - 1];
      PositionalSubseq(init);
      var p := Positional(init);
      assert xs == init + [last];
      if IsDashed(last) {
        assert Positional(xs) == p;
        SubseqSnoc(p, init, last);
      } else {
        assert Positional(xs) == p + [last];
        SubseqSnocBoth(p, init, last);
      }
    }
  }

  /** No positional argument starts with `-`. */
  lemma {:induction false} PositionalUndashed(xs: seq<string>)
    ensures forall i :: 0 <= i < |Positional(xs)| ==> !IsDashed(Positional(xs)[i])
    decreases |xs|
  {
    if |xs| > 0 {
      var init, last := xs[..|xs| - 1], xs[|xs| - 1];
      PositionalUndashed(init);
      var p := Positional(init);
      assert Positional(xs) == p + (if IsDashed(last) then [] else [last]);
    }
  }

  /** Every undashed token of the input is among the positional arguments. */
  lemma {:induction false} PositionalKeeps(xs: seq<string>)
    ensures forall i :: 0 <= i < |xs| && !IsDashed(xs[i]) ==> xs[i] in Positional(xs)
    decreases |xs|
  {
    if |xs| > 0 {
      var init, last := xs[..|xs| - 1], xs[|xs| - 1];
      PositionalKeeps(init);
      var p := Positional(init);
      assert Positional(xs) == p + (if IsDashed(last) then [] else [last]);
      forall i | 0 <= i < |xs| && !IsDashed(xs[i]) ensures xs[i] in Positional(xs) {
        if i < |xs| - 1 {
          assert xs[i] == init[i];
          assert xs[i] in p;
        }
      }
    }
  }

  /** Each undashed token occurs among the positional arguments as often as in the input. */
  lemma {:induction false} PositionalCount(xs: seq<string>)
    ensures forall t :: !IsDashed(t) ==> multiset(Positional(xs))[t] == multiset(xs)[t]
    decreases |xs|
  {
    if |xs| > 0 {
      var init, last := xs[..|xs| - 1], xs[|xs| - 1];
      assert xs == init + [last];
      PositionalCount(init);
    }
  }

  // ---------------------------------------------------------------------
  // Short flags

  /** A character is a flag exactly when it follows the `-` of some short-flag
      token, so a lone `-` contributes nothing. */
  lemma {:induction false} ShortFlagsFrom(xs: seq<string>, c: char)
    ensures c in ShortFlags(xs) <==>
      exists i :: 0 <= i < |xs| && IsShort(xs[i]) && c in xs[i][1..]
    decreases |xs|
  {
    if |xs| > 0 {
      var init, last := xs[..|xs| - 1], xs[|xs| - 1];
      ShortFlagsFrom(init, c);
      if c in ShortFlags(xs) {
        if c in ShortFlags(init) {
          var i :| 0 <= i < |init| && IsShort(init[i]) && c in init[i][1..];
          assert xs[i] == init[i];
        } else {
          assert IsShort(xs[|xs| - 1]) && c in xs[|xs| - 1][1..];
        }
      }
      if exists i :: 0 <= i < |xs| && IsShort(xs[i]) && c in xs[i][1..] {
        var i :| 0 <= i < |xs| && IsShort(xs[i]) && c in xs[i][1..];
        if i < |xs| - 1 {
          assert xs[i] == init[i];
        }
      }
    }
  }

  // ---------------------------------------------------------------------
  // Keyword arguments

  /** Every key of the keyword map comes from some long-option token. */
  lemma {:induction false} KeywordHasSource(xs: seq<string>, k: string)
    requires k in Keywords(xs)
    ensures exists i :: 0 <= i < |xs| && IsLong(xs[i]) && LongOption(xs[i][2..]).0 == k
    decreases |xs|
  {
    var init, last := xs[..|xs| - 1], xs[|xs| - 1];
    if IsLong(last) && LongOption(last[2..]).0 == k {
      assert IsLong(xs[|xs| - 1]);
    } else {
      KeywordHasSource(init, k);
      var i :| 0 <= i < |init| && IsLong(init[i]) && LongOption(init[i][2..]).0 == k;
      assert xs[i] == init[i];
    }
  }

  /** The value stored under a key is the one given by the last long-option
      token with that key: later duplicates overwrite earlier ones. */
  lemma {:induction false} KeywordLastWins(xs: seq<string>, i: nat)
    requires i < |xs| && IsLong(xs[i])
    requires forall j :: i < j < |xs| && IsLong(xs[j]) ==>
      LongOption(xs[j][2..]).0 != LongOption(xs[i][2..]).0
    ensures LongOption(xs[i][2..]).0 in Keywords(xs)
    ensures Keywords(xs)[LongOption(xs[i][2..]).0] == LongOption(xs[i][2..]).1
    decreases |xs|
  {
    if i < |xs| - 1 {
      var init := xs[..|xs| - 1];
      assert init[i] == xs[i];
      forall j | i < j < |init| && IsLong(init[j])
        ensures LongOption(init[j][2..]).0 != LongOption(init[i][2..]).0
      {
        assert init[j] == xs[j];
      }
      KeywordLastWins(init, i);
    }
  }

  lemma ExampleClassify()
    ensures ShortFlags(["-rw", "--foo=bar", "baz"]) == "rw"
    ensures Positional(["-rw", "--foo=bar", "baz"]) == ["baz"]
    ensures Keywords(["-rw", "--foo=bar", "baz"]) == map["foo" := Some("bar")]
  {
    var xs := ["-rw", "--foo=bar", "baz"];
    assert xs[..2] == ["-rw", "--foo=bar"];
    assert xs[..2][..1] == ["-rw"];
    assert xs[..2][..1][..0] == [];
    assert "-rw"[..2] == "-r";
    assert "--foo=bar"[..2] == "--";
    assert "baz"[..2] == "ba";
    assert IsShort("-rw") && IsLong("--foo=bar") && !IsDashed("baz");
    assert "--foo=bar"[2..] == "foo=bar";
    var kv := LongOption("foo=bar");
    assert kv.0 + "=" + kv.1.value == "foo=bar";
    assert "foo=bar"[3] == '=';
    assert kv.0 == "foo" && kv.1 == Some("bar");
    assert "-rw"[1..] == "rw";
    assert ShortFlags(["-rw"]) == "rw";
    assert ShortFlags(xs[..2]) == "rw";
    assert Positional(xs[..2]) == [];
    assert Keywords(["-rw"]) == map[];
    assert Keywords(xs[..2]) == map["foo" := Some("bar")];
  }
}
