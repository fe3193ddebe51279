/**
 * The two .NET string operations the comment synthesiser is built from:
 * `s.Split('\n')` (no options, so empty pieces are kept) and
 * `string.Join(sep, parts)`.
 */
module Lines {

  const NL: char := '\n'

  /** Number of occurrences of `c` in `s`. */
  function Count(s: string, c: char): nat
  {
    if s == [] then 0 else (if s[0] == c then 1 else 0) + Count(s[1..], c)
  }

  /**
   * `s.Split('\n')`: the pieces between line feeds, empty ones included.
   * There is always one piece more than there are line feeds, and no piece
   * holds a line feed.
   */
  function Split(s: string): (r: seq<string>)
    ensures |r| == Count(s, NL) + 1
    ensures forall i :: 0 <= i < |r| ==> NL !in r[i]
    decreases |s|
  {
    if s == [] then [""]
    else
      var rest := Split(s[1..]);
      if s[0] == NL then [""] + rest
      else [[s[0]] + rest[0]] + rest[1..]
  }

  /** `string.Join(sep, parts)`. */
  function Join(sep: string, parts: seq<string>): string
  {
    if |parts| == 0 then ""
    else if |parts| == 1 then parts[0]
    else parts[0] + sep + Join(sep, parts[1..])
  }

  /** Joining the pieces of a split gives back the original text, so nothing is trimmed. */
  lemma {:induction false} JoinSplit(s: string)
    ensures Join([NL], Split(s)) == s
    decreases |s|
  {
    if s != [] {
      var rest := Split(s[1..]);
      JoinSplit(s[1..]);
      if s[0] == NL {
        calc {
          Join([NL], Split(s));
          Join([NL], [""] + rest);
          "" + [NL] + Join([NL], rest);
          { assert s == [NL] + s[1..]; }
          s;
        }
      } else if |rest| == 1 {
        assert Split(s) == [[s[0]] + rest[0]];
        assert Join([NL], rest) == rest[0];
        assert s == [s[0]] + s[1..];
      } else {
        var head := [[s[0]] + rest[0]];
        assert Split(s) == head + rest[1..];
        calc {
          Join([NL], Split(s));
          ([s[0]] + rest[0]) + [NL] + Join([NL], rest[1..]);
          [s[0]] + (rest[0] + [NL] + Join([NL], rest[1..]));
          [s[0]] + Join([NL], rest);
          { assert s == [s[0]] + s[1..]; }
          s;
        }
      }
    }
  }

  /** A text without line feeds splits into itself alone. */
  lemma {:induction false} SplitNoBreak(a: string)
    requires NL !in a
    ensures Split(a) == [a]
    decreases |a|
  {
    if a != [] {
      SplitNoBreak(a[1..]);
      assert [a[0]] + a[1..] == a;
    }
  }

  /** A line feed after a line-feed-free prefix ends the first piece exactly there. */
  lemma {:induction false} SplitAfterLine(a: string, rest: string)
    requires NL !in a
    ensures Split(a + [NL] + rest) == [a] + Split(rest)
    decreases |a|
  {
    if a == [] {
      assert a + [NL] + rest == [NL] + rest;
      assert ([NL] + rest)[1..] == rest;
    } else {
      var s := a + [NL] + rest;
      assert s[0] == a[0] && s[1..] == a[1..] + [NL] + rest;
      SplitAfterLine(a[1..], rest);
      assert [a[0]] + a[1..] == a;
    }
  }

  /** Splitting the join of line-feed-free pieces gives back exactly those pieces. */
  lemma {:induction false} SplitJoin(parts: seq<string>)
    requires |parts| >= 1
    requires forall i :: 0 <= i < |parts| ==> NL !in parts[i]
    ensures Split(Join([NL], parts)) == parts
    decreases |parts|
  {
    if |parts| == 1 {
      SplitNoBreak(parts[0]);
    } else {
      SplitJoin(parts[1..]);
      SplitAfterLine(parts[0], Join([NL], parts[1..]));
      assert [parts[0]] + parts[1..] == parts;
    }
  }

  /** Joining two non-empty lists puts one separator between their joins. */
  lemma {:induction false} JoinAppend(sep: string, a: seq<string>, b: seq<string>)
    requires |a| >= 1 && |b| >= 1
    ensures Join(sep, a + b) == Join(sep, a) + sep + Join(sep, b)
    decreases |a|
  {
    if |a| == 1 {
      assert (a + b)[1..] == b;
    } else {
      assert (a + b)[1..] == a[1..] + b;
      JoinAppend(sep, a[1..], b);
    }
  }
}
