/** Python's string primitives that the tile renderer and the case-line
    codec rely on: `sep.join(parts)`, `s.split(sep)` for a one-character
    separator, slicing with clamped bounds, and `s.strip()`. */
module Text {

  /** `sep.join(parts)`. */
  function Join(parts: seq<string>, sep: char): (s: string)
    ensures |parts| == 1 ==> s == parts[0]
  {
    if |parts| == 0 then ""
    else if |parts| == 1 then parts[0]
    else parts[0] + [sep] + Join(parts[1..], sep)
  }

  /** `s.split(sep)`: the pieces between occurrences of sep; always at
      least one piece, and none of them contains sep. */
  function Split(s: string, sep: char): (parts: seq<string>)
    ensures |parts| >= 1
    ensures forall k :: 0 <= k < |parts| ==> sep !in parts[k]
    decreases |s|
  {
    if |s| == 0 then [""]
    else if s[0] == sep then [""] + Split(s[1..], sep)
    else
      var rest := Split(s[1..], sep);
      [[s[0]] + rest[0]] + rest[1..]
  }

  /** Splitting a joined list gives the list back when no piece holds the
      separator. */
  lemma {:induction false} SplitJoin(parts: seq<string>, sep: char)
    requires |parts| >= 1
    requires forall k :: 0 <= k < |parts| ==> sep !in parts[k]
    ensures Split(Join(parts, sep), sep) == parts
    decreases |Join(parts, sep)|
  {
    var head := parts[0];
    if |parts| == 1 {
      SplitNoSep(head, sep);
    } else if |head| == 0 {
      assert Join(parts, sep) == [sep] + Join(parts[1..], sep);
      SplitJoin(parts[1..], sep);
    } else {
      var tailParts := [head[1..]] + parts[1..];
      assert tailParts[1..] == parts[1..];
      assert Join(parts, sep) == [head[0]] + Join(tailParts, sep);
      SplitJoin(tailParts, sep);
      assert [head[0]] + head[1..] == head;
      assert parts == [head] + parts[1..];
    }
  }

  /** A string without the separator is a single piece. */
  lemma {:induction false} SplitNoSep(s: string, sep: char)
    requires sep !in s
    ensures Split(s, sep) == [s]
    decreases |s|
  {
    if |s| > 0 {
      SplitNoSep(s[1..], sep);
      assert [s[0]] + s[1..] == s;
    }
  }

  /** Joining with one more piece at the end appends the separator and
      that piece. */
  lemma {:induction false} JoinSnoc(parts: seq<string>, last: string, sep: char)
    ensures Join(parts + [last], sep) == if |parts| == 0 then last else Join(parts, sep) + [sep] + last
    decreases |parts|
  {
    if |parts| >= 2 {
      assert (parts + [last])[1..] == parts[1..] + [last];
      JoinSnoc(parts[1..], last, sep);
    } else if |parts| == 1 {
      assert (parts + [last])[1..] == [last];
    }
  }

  /** Joining the pieces of a split gives the string back. */
  lemma {:induction false} JoinSplit(s: string, sep: char)
    ensures Join(Split(s, sep), sep) == s
    decreases |s|
  {
    if |s| > 0 {
      JoinSplit(s[1..], sep);
      var rest := Split(s[1..], sep);
      if s[0] == sep {
        assert s == [sep] + s[1..];
      } else if |rest| == 1 {
        assert s == [s[0]] + s[1..];
      } else {
        assert Join(rest, sep) == rest[0] + [sep] + Join(rest[1..], sep);
        assert s == [s[0]] + s[1..];
      }
    }
  }

  /** Python's `max(0, n)` for a count such as `[0] * n` or `range(n)`. */
  function Clamp(n: int): (r: nat)
    ensures r == n || (n < 0 && r == 0)
  {
    if n < 0 then 0 else n
  }

  /** Python's `xs[lo:hi]` for non-negative bounds: each bound is clamped
      to the length, and an empty slice results when lo passes hi. */
  function Slice<T>(xs: seq<T>, lo: nat, hi: nat): (r: seq<T>)
    ensures lo <= hi <= |xs| ==> r == xs[lo..hi]
    ensures hi <= lo || |xs| <= lo ==> r == []
    ensures lo <= |xs| <= hi ==> r == xs[lo..]
  {
    var l := if lo < |xs| then lo else |xs|;
    var h := if hi < |xs| then hi else |xs|;
    if l < h then xs[l..h] else []
  }

  /** Python's `s[:-1]`: the string without its last character, empty when
      it is already empty. */
  function DropLast(s: string): (r: string)
    ensures |s| > 0 ==> r + [s[|s| - 1]] == s
    ensures |s| == 0 ==> r == ""
  {
    if |s| == 0 then s else s[..|s| - 1]
  }

  /** The characters `str.strip()` removes: Python's whitespace. */
  predicate IsSpace(c: char)
  {
    c == ' ' || ('\t' <= c <= '\r') || ('\U{1c}' <= c <= '\U{1f}') ||
    c == '\U{85}' || c == '\U{a0}' || c == '\U{1680}' || ('\U{2000}' <= c <= '\U{200a}') ||
    c == '\U{2028}' || c == '\U{2029}' || c == '\U{202f}' || c == '\U{205f}' || c == '\U{3000}'
  }

  function StripLeft(s: string): (r: string)
    ensures |r| <= |s| && r == s[|s| - |r|..]
    ensures |r| > 0 ==> !IsSpace(r[0])
    ensures forall k :: 0 <= k < |s| - |r| ==> IsSpace(s[k])
    decreases |s|
  {
    if |s| > 0 && IsSpace(s[0]) then StripLeft(s[1..]) else s
  }

  function StripRight(s: string): (r: string)
    ensures |r| <= |s| && r == s[..|r|]
    ensures |r| > 0 ==> !IsSpace(r[|r| - 1])
    ensures forall k :: |r| <= k < |s| ==> IsSpace(s[k])
    decreases |s|
  {
    if |s| > 0 && IsSpace(s[|s| - 1]) then StripRight(s[..|s| - 1]) else s
  }

  /** `s.strip()`: the string without leading and trailing whitespace. */
  function Strip(s: string): (r: string)
  {
    StripRight(StripLeft(s))
  }

  /** Stripping removes exactly the whitespace at both ends: the result is
      a substring of s that neither starts nor ends in whitespace, and all
      that was cut off is whitespace. */
  lemma StripBounds(s: string) returns (lo: nat, hi: nat)
    ensures lo <= hi <= |s| && Strip(s) == s[lo..hi]
    ensures forall k :: 0 <= k < lo || hi <= k < |s| ==> IsSpace(s[k])
    ensures hi > lo ==> !IsSpace(s[lo]) && !IsSpace(s[hi - 1])
  {
    var left := StripLeft(s);
    lo := |s| - |left|;
    hi := lo + |StripRight(left)|;
    assert s[lo..hi] == left[..hi - lo];
  }

  /** A string whose characters are all whitespace strips to nothing, and
      only such a string does. */
  lemma StripEmpty(s: string)
    ensures Strip(s) == "" <==> forall k :: 0 <= k < |s| ==> IsSpace(s[k])
  {
    var lo, hi := StripBounds(s);
    if hi > lo {
      assert !IsSpace(s[lo]);
    }
  }

  /** Stripping a line read back with its newline gives the written text,
      when that text neither starts nor ends in whitespace. */
  lemma StripNewline(s: string)
    requires |s| > 0 ==> !IsSpace(s[0]) && !IsSpace(s[|s| - 1])
    ensures Strip(s + "\n") == s
  {
    var lo, hi := StripBounds(s + "\n");
    var t := s + "\n";
    assert IsSpace(t[|s|]);
    if |s| > 0 {
      assert !IsSpace(t[0]) && !IsSpace(t[|s| - 1]);
    }
  }

  /** `"".join(parts)`. */
  function Concat(parts: seq<string>): string
  {
    if |parts| == 0 then "" else Concat(parts[..|parts| - 1]) + parts[|parts| - 1]
  }

  lemma {:induction false} ConcatAppend(a: seq<string>, b: seq<string>)
    ensures Concat(a + b) == Concat(a) + Concat(b)
    decreases |b|
  {
    if |b| == 0 {
      assert a + b == a;
    } else {
      assert (a + b)[..|a + b| - 1] == a + b[..|b| - 1];
      ConcatAppend(a, b[..|b| - 1]);
    }
  }

  lemma ConcatSnoc(parts: seq<string>, n: nat)
    requires n < |parts|
    ensures Concat(parts[..n + 1]) == Concat(parts[..n]) + parts[n]
  {
    assert parts[..n + 1][..n] == parts[..n];
  }

  /** Text appended after a prefix and a middle part: the step of every
      appending loop, stated over plain sequences. */
  lemma Reassociate<T>(s: seq<T>, line: seq<T>, pre: seq<T>, part: seq<T>, whole: seq<T>)
    requires line == s + pre && whole == pre + part
    ensures line + part == s + whole
  {
  }

  /** Piece n sits between the pieces before it and those after it. */
  lemma ConcatAt(parts: seq<string>, n: nat)
    requires n < |parts|
    ensures Concat(parts) == Concat(parts[..n]) + parts[n] + Concat(parts[n + 1..])
  {
    var pre, one, post := parts[..n], [parts[n]], parts[n + 1..];
    Around(parts, n);
    ConcatAppend(pre, one + post);
    ConcatAppend(one, post);
    ConcatOne(parts[n]);
  }

  lemma Around<T>(xs: seq<T>, n: nat)
    requires n < |xs|
    ensures xs == xs[..n] + ([xs[n]] + xs[n + 1..])
  {
    assert xs[n..] == [xs[n]] + xs[n + 1..];
  }

  lemma ConcatOne(part: string)
    ensures Concat([part]) == part
  {
    assert [part][..0] == [];
  }

  /** The first n pieces, all w characters long, take w * n characters. */
  lemma {:induction false} ConcatUniform(parts: seq<string>, w: nat, n: nat)
    requires forall k :: 0 <= k < |parts| ==> |parts[k]| == w
    requires n <= |parts|
    ensures |Concat(parts[..n])| == w * n
    decreases n
  {
    if n > 0 {
      assert parts[..n][..n - 1] == parts[..n - 1];
      ConcatUniform(parts, w, n - 1);
    }
  }

  /** Each piece followed by the separator, concatenated, is the pieces
      joined by it with one more separator at the end. */
  lemma {:induction false} ConcatTerminated(parts: seq<string>, sep: char)
    requires |parts| > 0
    ensures Concat(seq(|parts|, k requires 0 <= k < |parts| => parts[k] + [sep])) ==
      Join(parts, sep) + [sep]
    decreases |parts|
  {
    var ts := seq(|parts|, k requires 0 <= k < |parts| => parts[k] + [sep]);
    var n := |parts| - 1;
    var init := parts[..n];
    assert ts[..n] == seq(n, k requires 0 <= k < n => init[k] + [sep]);
    assert parts == init + [parts[n]];
    JoinSnoc(init, parts[n], sep);
    if n > 0 {
      ConcatTerminated(init, sep);
    } else {
      assert ts[..n] == [];
    }
  }

  /** Concatenating keeps any property every character of every piece has. */
  lemma {:induction false} ConcatKeeps(parts: seq<string>, ok: char -> bool)
    requires forall i, k :: 0 <= i < |parts| && 0 <= k < |parts[i]| ==> ok(parts[i][k])
    ensures forall k :: 0 <= k < |Concat(parts)| ==> ok(Concat(parts)[k])
    decreases |parts|
  {
    if |parts| > 0 {
      ConcatKeeps(parts[..|parts| - 1], ok);
    }
  }

  /** So does joining, when the separator has it too. */
  lemma {:induction false} JoinKeeps(parts: seq<string>, sep: char, ok: char -> bool)
    requires ok(sep)
    requires forall i, k :: 0 <= i < |parts| && 0 <= k < |parts[i]| ==> ok(parts[i][k])
    ensures forall k :: 0 <= k < |Join(parts, sep)| ==> ok(Join(parts, sep)[k])
    decreases |parts|
  {
    if |parts| > 1 {
      JoinKeeps(parts[1..], sep, ok);
    }
  }

  /** Fields without white space, joined into a line and read back with
      its newline, stripped and split, are the fields again. */
  lemma SplitLine(parts: seq<string>, sep: char)
    requires |parts| >= 1 && !IsSpace(sep)
    requires forall k :: 0 <= k < |parts| ==> sep !in parts[k]
    requires forall i, k :: 0 <= i < |parts| && 0 <= k < |parts[i]| ==> !IsSpace(parts[i][k])
    ensures Split(Strip(Join(parts, sep) + "\n"), sep) == parts
  {
    JoinKeeps(parts, sep, c => !IsSpace(c));
    StripNewline(Join(parts, sep));
    SplitJoin(parts, sep);
  }

  /** Concatenating the characters of a string one by one gives it back. */
  lemma {:induction false} ConcatChars(cs: string)
    ensures Concat(seq(|cs|, j requires 0 <= j < |cs| => [cs[j]])) == cs
    decreases |cs|
  {
    if |cs| > 0 {
      var n := |cs| - 1;
      var init := cs[..n];
      assert seq(|cs|, j requires 0 <= j < |cs| => [cs[j]])[..n] ==
        seq(|init|, j requires 0 <= j < |init| => [init[j]]);
      ConcatChars(init);
      assert cs == init + [cs[n]];
    }
  }
}
