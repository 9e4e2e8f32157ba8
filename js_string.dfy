/**
 * The three JavaScript string built-ins the route parser relies on:
 * `String.prototype.substring`, `String.prototype.split` with a one-character
 * separator, and `String.prototype.trim`, together with `Array.prototype.join`,
 * which is the inverse of `split`.
 */
module JsString {

  /** JavaScript's `substring` moves each index to the nearest point of `[0, len]`. */
  function ClampIndex(x: int, len: nat): (r: nat)
    ensures r <= len
    ensures forall y: int {:trigger Distance(x, y)} :: 0 <= y <= len ==> Distance(x, r) <= Distance(x, y)
  {
    if x < 0 then 0 else if x > len then len else x
  }

  function Distance(x: int, y: int): nat
  {
    if x <= y then y - x else x - y
  }

  /**
   * `s.substring(start, end)`: both bounds are clamped to `[0, |s|]` and, when the
   * clamped start lies past the clamped end, the two are swapped.
   */
  function Substring(s: string, start: int, end: int): (r: string)
    ensures |r| <= |s|
    ensures 0 <= start <= end <= |s| ==> r == s[start..end]
    ensures 0 <= end <= start <= |s| ==> r == s[end..start]
    ensures start <= 0 && end <= 0 ==> r == ""
    ensures start >= |s| && end >= |s| ==> r == ""
  {
    var a, b := ClampIndex(start, |s|), ClampIndex(end, |s|);
    if a <= b then s[a..b] else s[b..a]
  }

  /** The order of the two bounds never matters. */
  lemma SubstringSymmetric(s: string, start: int, end: int)
    ensures Substring(s, start, end) == Substring(s, end, start)
  {
  }

  /** Bounds outside the string behave exactly as the nearest bound inside it. */
  lemma SubstringClampsBounds(s: string, start: int, end: int)
    ensures Substring(s, start, end) == Substring(s, ClampIndex(start, |s|), ClampIndex(end, |s|))
  {
  }

  /** The number of occurrences of `c` in `s`. */
  function Count(s: string, c: char): (n: nat)
    ensures n <= |s|
    ensures n == 0 <==> c !in s
  {
    if s == [] then 0 else (if s[0] == c then 1 else 0) + Count(s[1..], c)
  }

  /** `parts.join(sep)`: the parts with one `sep` between neighbours; `""` for no parts. */
  function Join(parts: seq<string>, sep: char): (s: string)
    ensures |parts| == 1 ==> s == parts[0]
  {
    if |parts| == 0 then ""
    else if |parts| == 1 then parts[0]
    else parts[0] + [sep] + Join(parts[1..], sep)
  }

  /** Every part is free of the separator. */
  predicate SeparatorFree(parts: seq<string>, sep: char)
  {
    forall i :: 0 <= i < |parts| ==> sep !in parts[i]
  }

  /**
   * `s.split(sep)` for a one-character separator: the maximal separator-free runs
   * of `s`, in order. It never returns an empty array, and two adjacent separators
   * (or one at either end) give an empty part.
   */
  function Split(s: string, sep: char): (parts: seq<string>)
    ensures |parts| == Count(s, sep) + 1
    ensures SeparatorFree(parts, sep)
    ensures Join(parts, sep) == s
  {
    if s == [] then [""]
    else
      var rest := Split(s[1..], sep);
      if s[0] == sep then
        assert Join([""] + rest, sep) == [sep] + Join(rest, sep) by {
          assert ([""] + rest)[1..] == rest;
        }
        [""] + rest
      else
        var parts := [[s[0]] + rest[0]] + rest[1..];
        assert parts[1..] == rest[1..];
        assert Join(parts, sep) == [s[0]] + Join(rest, sep) by {
          if |rest| > 1 {
            assert rest == [rest[0]] + rest[1..];
          }
        }
        parts
  }

  /** Joining unfolds one part at a time. */
  lemma JoinCons(head: string, tail: seq<string>, sep: char)
    requires |tail| >= 1
    ensures Join([head] + tail, sep) == head + [sep] + Join(tail, sep)
  {
    assert ([head] + tail)[1..] == tail;
  }

  /**
   * `split` inverts `join`: any non-empty sequence of separator-free parts whose
   * join is `s` is exactly `s.split(sep)`.
   */
  lemma {:induction false} SplitJoin(parts: seq<string>, sep: char)
    requires |parts| >= 1
    requires SeparatorFree(parts, sep)
    ensures Split(Join(parts, sep), sep) == parts
    decreases |Join(parts, sep)|
  {
    var s := Join(parts, sep);
    if |parts| == 1 {
      SplitOfSeparatorFree(parts[0], sep);
    } else {
      var tail := parts[1..];
      assert parts == [parts[0]] + tail;
      JoinCons(parts[0], tail, sep);
      assert s == parts[0] + [sep] + Join(tail, sep);
      if parts[0] == [] {
        assert s == [sep] + Join(tail, sep);
        assert s[1..] == Join(tail, sep);
        SplitJoin(tail, sep);
      } else {
        var shorter := [parts[0][1..]] + tail;
        assert shorter[1..] == tail;
        JoinCons(parts[0][1..], tail, sep);
        assert s == [parts[0][0]] + Join(shorter, sep);
        assert s[1..] == Join(shorter, sep);
        assert SeparatorFree(shorter, sep) by {
          forall i | 0 <= i < |shorter| ensures sep !in shorter[i] {
            if i == 0 {
              assert parts[0] == [parts[0][0]] + parts[0][1..];
            } else {
              assert shorter[i] == parts[i];
            }
          }
        }
        SplitJoin(shorter, sep);
        assert parts[0][0] != sep;
        assert parts[0] == [parts[0][0]] + parts[0][1..];
      }
    }
  }

  /** A string without the separator splits into itself alone. */
  lemma {:induction false} SplitOfSeparatorFree(s: string, sep: char)
    requires sep !in s
    ensures Split(s, sep) == [s]
  {
    if s != [] {
      assert sep !in s[1..] by {
        assert forall k :: 0 <= k < |s| - 1 ==> s[1..][k] == s[k + 1];
      }
      SplitOfSeparatorFree(s[1..], sep);
      assert s == [s[0]] + s[1..];
    }
  }

  /** `split` is characterised by its three properties: they single out its result. */
  lemma SplitUnique(s: string, sep: char, parts: seq<string>)
    requires |parts| >= 1
    requires SeparatorFree(parts, sep)
    requires Join(parts, sep) == s
    ensures parts == Split(s, sep)
  {
    SplitJoin(parts, sep);
  }

  /** `n` copies of `c`. */
  function Repeat(c: char, n: nat): (s: string)
    ensures |s| == n
    ensures forall k :: 0 <= k < n ==> s[k] == c
  {
    if n == 0 then "" else [c] + Repeat(c, n - 1)
  }

  /** `n` empty strings. */
  function Empties(n: nat): (parts: seq<string>)
    ensures |parts| == n
    ensures forall k :: 0 <= k < n ==> parts[k] == ""
  {
    if n == 0 then [] else [""] + Empties(n - 1)
  }

  lemma {:induction false} JoinEmptiesThen(n: nat, last: string, sep: char)
    ensures Join(Empties(n) + [last], sep) == Repeat(sep, n) + last
  {
    if n > 0 {
      assert Empties(n) + [last] == [""] + (Empties(n - 1) + [last]);
      JoinCons("", Empties(n - 1) + [last], sep);
      JoinEmptiesThen(n - 1, last, sep);
    } else {
      assert Empties(0) + [last] == [last];
    }
  }

  /** Joining a word, empty parts and a word puts the separators back between them. */
  lemma JoinRun(first: string, k: nat, second: string, sep: char)
    requires k >= 1
    ensures Join([first] + (Empties(k - 1) + [second]), sep) == first + Repeat(sep, k) + second
  {
    JoinCons(first, Empties(k - 1) + [second], sep);
    JoinEmptiesThen(k - 1, second, sep);
    assert Repeat(sep, k) == [sep] + Repeat(sep, k - 1);
  }

  lemma RunSeparatorFree(first: string, k: nat, second: string, sep: char)
    requires k >= 1
    requires sep !in first && sep !in second
    ensures SeparatorFree([first] + (Empties(k - 1) + [second]), sep)
  {
    var parts := [first] + (Empties(k - 1) + [second]);
    forall i | 0 <= i < |parts| ensures sep !in parts[i] {
      if i == 0 {
      } else if i < |parts| - 1 {
        assert parts[i] == Empties(k - 1)[i - 1];
      } else {
        assert parts[i] == second;
      }
    }
  }

  /**
   * A run of `k >= 1` separators between two separator-free words splits into the
   * first word, `k - 1` empty parts and the second word.
   */
  lemma SplitRun(first: string, k: nat, second: string, sep: char)
    requires k >= 1
    requires sep !in first && sep !in second
    ensures Split(first + Repeat(sep, k) + second, sep) == [first] + Empties(k - 1) + [second]
  {
    var parts := [first] + (Empties(k - 1) + [second]);
    assert [first] + Empties(k - 1) + [second] == parts;
    JoinRun(first, k, second, sep);
    RunSeparatorFree(first, k, second, sep);
    SplitJoin(parts, sep);
  }

  /**
   * The characters `trim` removes: ECMAScript's WhiteSpace (tab, vertical tab,
   * form feed, space, no-break space, zero-width no-break space and the other
   * space separators of Unicode category Zs) and LineTerminator (line feed,
   * carriage return, line separator, paragraph separator).
   */
  predicate IsWhitespace(c: char)
  {
    c in {
      '\t', '\n', '\U{000B}', '\U{000C}', '\r', ' ', '\U{00A0}', '\U{1680}',
      '\U{2000}', '\U{2001}', '\U{2002}', '\U{2003}', '\U{2004}', '\U{2005}',
      '\U{2006}', '\U{2007}', '\U{2008}', '\U{2009}', '\U{200A}',
      '\U{2028}', '\U{2029}', '\U{202F}', '\U{205F}', '\U{3000}', '\U{FEFF}'
    }
  }

  /** The leading half of `trim()`: the suffix left once the leading whitespace run is gone. */
  function TrimStart(s: string): (r: string)
    ensures |r| <= |s| && r == s[|s| - |r|..]
    ensures forall k :: 0 <= k < |s| - |r| ==> IsWhitespace(s[k])
    ensures |r| > 0 ==> !IsWhitespace(r[0])
  {
    if |s| > 0 && IsWhitespace(s[0]) then TrimStart(s[1..]) else s
  }

  /** The trailing half of `trim()`: the prefix left once the trailing whitespace run is gone. */
  function TrimEnd(s: string): (r: string)
    ensures |r| <= |s| && r == s[..|r|]
    ensures forall k :: |r| <= k < |s| ==> IsWhitespace(s[k])
    ensures |r| > 0 ==> !IsWhitespace(r[|r| - 1])
  {
    if |s| > 0 && IsWhitespace(s[|s| - 1]) then TrimEnd(s[..|s| - 1]) else s
  }

  /** `r` is `s[i..i + |r|]` and everything of `s` around it is whitespace. */
  predicate TrimmedAt(s: string, r: string, i: int)
  {
    0 <= i <= |s| - |r|
    && r == s[i..i + |r|]
    && (forall k :: 0 <= k < i ==> IsWhitespace(s[k]))
    && (forall k :: i + |r| <= k < |s| ==> IsWhitespace(s[k]))
  }

  /**
   * `s.trim()`: the contiguous piece of `s` left after removing whitespace at both
   * ends; it neither starts nor ends with whitespace.
   */
  function Trim(s: string): (r: string)
    ensures exists i :: TrimmedAt(s, r, i)
    ensures |r| > 0 ==> !IsWhitespace(r[0]) && !IsWhitespace(r[|r| - 1])
  {
    var front := TrimStart(s);
    var r := TrimEnd(front);
    assert TrimmedAt(s, r, |s| - |front|);
    r
  }

  /** Trimming twice is trimming once. */
  lemma TrimIdempotent(s: string)
    ensures Trim(Trim(s)) == Trim(s)
  {
    var r := Trim(s);
    TrimOfTrimmed(r);
  }

  /** A string with no whitespace at either end is its own trim. */
  lemma TrimOfTrimmed(s: string)
    requires |s| > 0 ==> !IsWhitespace(s[0]) && !IsWhitespace(s[|s| - 1])
    ensures Trim(s) == s
  {
  }
}
