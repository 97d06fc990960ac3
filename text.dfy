/** String helpers standing in for the JavaScript built-ins the engine uses
    (`trim`, `trimEnd`, `split`, `join`, `repeat`). One `char` stands for one
    code unit of the text; whitespace is a fixed set of characters. */
module Text {

  /** The whitespace `trim` removes, restricted to the ASCII control set and space. */
  predicate IsSpace(c: char) {
    c == ' ' || c == '\t' || c == '\n' || c == '\r' || c == '\U{000B}' || c == '\U{000C}'
  }

  predicate EndsWith(s: string, suffix: string) {
    |suffix| <= |s| && s[|s| - |suffix|..] == suffix
  }

  /** `Math.min` and `Math.max` on two integers. */
  function Min(a: int, b: int): int { if a < b then a else b }
  function Max(a: int, b: int): int { if a < b then b else a }

  /** `c.repeat(n)` for a single character. */
  function Repeat(c: char, n: nat): (r: string)
    ensures |r| == n && forall k :: 0 <= k < n ==> r[k] == c
  {
    seq(n, _ => c)
  }

  /** `trimStart`: drops the leading whitespace and nothing else. */
  function TrimStart(s: string): (r: string)
    ensures |r| <= |s| && r == s[|s| - |r|..]
    ensures r == [] || !IsSpace(r[0])
    ensures forall k :: 0 <= k < |s| - |r| ==> IsSpace(s[k])
  {
    if s != [] && IsSpace(s[0]) then TrimStart(s[1..]) else s
  }

  /** `trimEnd`: drops the trailing whitespace and nothing else. */
  function TrimEnd(s: string): (r: string)
    ensures |r| <= |s| && r == s[..|r|]
    ensures r == [] || !IsSpace(r[|r| - 1])
    ensures forall k :: |r| <= k < |s| ==> IsSpace(s[k])
  {
    if s != [] && IsSpace(s[|s| - 1]) then TrimEnd(s[..|s| - 1]) else s
  }

  function Trim(s: string): string {
    TrimEnd(TrimStart(s))
  }

  /** `s.split(c)` for a one-character separator: the pieces between the
      occurrences of `c`; an empty string gives one empty piece. */
  function SplitOn(s: string, c: char): (r: seq<string>)
    ensures |r| >= 1
    ensures forall k :: 0 <= k < |r| ==> c !in r[k]
  {
    if s == [] then [""]
    else
      var rest := SplitOn(s[1..], c);
      if s[0] == c then [""] + rest
      else [[s[0]] + rest[0]] + rest[1..]
  }

  /** `parts.join(sep)`. */
  function Join(parts: seq<string>, sep: string): string {
    if |parts| == 0 then ""
    else if |parts| == 1 then parts[0]
    else parts[0] + sep + Join(parts[1..], sep)
  }

  /** Splitting on `c` and joining with `c` gives the string back. */
  lemma {:induction false} JoinSplitOn(s: string, c: char)
    ensures Join(SplitOn(s, c), [c]) == s
  {
    if s != [] {
      var rest := SplitOn(s[1..], c);
      JoinSplitOn(s[1..], c);
      if s[0] == c {
        assert SplitOn(s, c) == [""] + rest;
        assert ([""] + rest)[1..] == rest;
      } else {
        var r := [[s[0]] + rest[0]] + rest[1..];
        assert SplitOn(s, c) == r;
        if |rest| == 1 {
          assert Join(rest, [c]) == rest[0];
        } else {
          assert r[1..] == rest[1..];
          assert Join(rest, [c]) == rest[0] + [c] + Join(rest[1..], [c]);
        }
      }
    }
  }

  /** A string without the separator is one piece. */
  lemma {:induction false} SplitOnWithout(s: string, c: char)
    requires c !in s
    ensures SplitOn(s, c) == [s]
  {
    if s != [] {
      assert c !in s[1..];
      SplitOnWithout(s[1..], c);
      assert [s[0]] + s[1..] == s;
      assert SplitOn(s, c) == [[s[0]] + s[1..]];
    }
  }

  /** A first piece without the separator, the separator, then the rest. */
  lemma {:induction false} SplitOnPrefix(a: string, b: string, c: char)
    requires c !in a
    ensures SplitOn(a + [c] + b, c) == [a] + SplitOn(b, c)
  {
    if a == [] {
      assert a + [c] + b == [c] + b;
      assert ([c] + b)[1..] == b;
    } else {
      assert (a + [c] + b)[1..] == a[1..] + [c] + b;
      assert c !in a[1..];
      SplitOnPrefix(a[1..], b, c);
      assert [a[0]] + a[1..] == a;
    }
  }

  /** Pieces without `c`, joined by `c`, then `c` and more text: splitting
      on `c` gives the pieces back, then the pieces of the rest. */
  lemma {:induction false} SplitOnJoin(parts: seq<string>, c: char, rest: string)
    requires |parts| >= 1 && forall k :: 0 <= k < |parts| ==> c !in parts[k]
    ensures SplitOn(Join(parts, [c]) + [c] + rest, c) == parts + SplitOn(rest, c)
  {
    if |parts| == 1 {
      SplitOnPrefix(parts[0], rest, c);
    } else {
      var tail := parts[1..];
      assert forall k :: 0 <= k < |tail| ==> tail[k] == parts[k + 1];
      SplitOnJoin(tail, c, rest);
      SplitOnJoinCons(parts[0], tail, c, rest);
      assert [parts[0]] + tail == parts;
    }
  }

  /** The step of SplitOnJoin: one more piece in front. */
  lemma SplitOnJoinCons(first: string, tail: seq<string>, c: char, rest: string)
    requires |tail| >= 1 && c !in first
    requires SplitOn(Join(tail, [c]) + [c] + rest, c) == tail + SplitOn(rest, c)
    ensures SplitOn(Join([first] + tail, [c]) + [c] + rest, c) == [first] + tail + SplitOn(rest, c)
  {
    var after := Join(tail, [c]) + [c] + rest;
    assert Join([first] + tail, [c]) == first + [c] + Join(tail, [c]) by {
      assert ([first] + tail)[1..] == tail;
    }
    assert Join([first] + tail, [c]) + [c] + rest == first + [c] + after;
    SplitOnPrefix(first, after, c);
  }

  /** A character absent from a string is absent from each of its pieces. */
  lemma {:induction false} SplitOnPieces(s: string, c: char, d: char)
    requires d !in s
    ensures forall k :: 0 <= k < |SplitOn(s, c)| ==> d !in SplitOn(s, c)[k]
  {
    if s != [] {
      assert d !in s[1..];
      SplitOnPieces(s[1..], c, d);
    }
  }

  /** A character absent from a string is absent from its trim. */
  lemma TrimWithout(s: string, d: char)
    requires d !in s
    ensures d !in Trim(s)
  {
    var t := TrimStart(s);
    assert forall k :: 0 <= k < |t| ==> t[k] == s[|s| - |t| + k];
    var r := TrimEnd(t);
    assert forall k :: 0 <= k < |r| ==> r[k] == t[k];
  }

  /** Pieces and separator without `d` join into a string without `d`. */
  lemma {:induction false} JoinWithout(parts: seq<string>, sep: string, d: char)
    requires d !in sep && forall k :: 0 <= k < |parts| ==> d !in parts[k]
    ensures d !in Join(parts, sep)
  {
    if |parts| > 1 {
      JoinWithout(parts[1..], sep, d);
    }
  }

  /** The first whitespace-delimited word of a string that `trim` has
      already cleaned: `s.split(/\s+/)[0]`. */
  function FirstWord(s: string): (r: string)
    ensures |r| <= |s| && r == s[..|r|]
    ensures forall k :: 0 <= k < |r| ==> !IsSpace(r[k])
    ensures |r| == |s| || IsSpace(s[|r|])
  {
    if s == [] || IsSpace(s[0]) then "" else [s[0]] + FirstWord(s[1..])
  }
}
