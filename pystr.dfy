/**
 * The three Python `str` operations the core relies on, with CPython's semantics:
 * `s.split(sep)` with an explicit separator and no maximum split count,
 * `sep.join(parts)`, and `s.strip()` with no argument.
 */
module PyStr {
  import opened Options

  /** `sep` occurs in `s` starting at index `j`. */
  predicate OccursAt(s: string, sep: string, j: nat)
  {
    j + |sep| <= |s| && s[j..j + |sep|] == sep
  }

  predicate Contains(s: string, sep: string)
  {
    exists j: nat | j <= |s| :: OccursAt(s, sep, j)
  }

  /** Index of the leftmost occurrence of `sep` in `s` (Python's `str.find`, with `None` for -1). */
  function IndexOf(s: string, sep: string): (r: Option<nat>)
    requires |sep| > 0
    ensures r.Some? ==> OccursAt(s, sep, r.value)
    ensures r.Some? ==> forall j: nat :: j < r.value ==> !OccursAt(s, sep, j)
    ensures r.None? <==> !Contains(s, sep)
    decreases |s|
  {
    if |s| < |sep| then
      None
    else if s[..|sep|] == sep then
      assert OccursAt(s, sep, 0);
      Some(0)
    else
      assert !OccursAt(s, sep, 0) by { assert s[0..|sep|] == s[..|sep|]; }
      var rest := IndexOf(s[1..], sep);
      ShiftOccurrence(s, sep);
      match rest
      case None => None
      case Some(i) => Some(i + 1)
  }

  /** Occurrences in `s[1..]` are the occurrences in `s` after its first index. */
  lemma ShiftOccurrence(s: string, sep: string)
    requires |s| > 0
    ensures forall j: nat :: 0 < j ==> (OccursAt(s, sep, j) <==> OccursAt(s[1..], sep, j - 1))
  {
  }

  /** Python `s.split(sep)`: the pieces between the non-overlapping occurrences of `sep`, found left to right. */
  function Split(s: string, sep: string): (parts: seq<string>)
    requires |sep| > 0
    ensures |parts| >= 1
    decreases |s|
  {
    match IndexOf(s, sep)
    case None => [s]
    case Some(i) => [s[..i]] + Split(s[i + |sep|..], sep)
  }

  /** Python `sep.join(parts)`; the join of no parts is the empty string. */
  function Join(parts: seq<string>, sep: string): string
  {
    if |parts| == 0 then ""
    else if |parts| == 1 then parts[0]
    else parts[0] + sep + Join(parts[1..], sep)
  }

  /** Gluing the pieces of `s.split(sep)` back together with `sep` gives `s` again. */
  lemma {:induction false} JoinSplit(s: string, sep: string)
    requires |sep| > 0
    ensures Join(Split(s, sep), sep) == s
    decreases |s|
  {
    match IndexOf(s, sep)
    case None =>
    case Some(i) =>
      var rest := s[i + |sep|..];
      var tail := Split(rest, sep);
      var parts := Split(s, sep);
      assert parts == [s[..i]] + tail;
      JoinSplit(rest, sep);
      assert parts[1..] == tail;
      assert Join(parts, sep) == s[..i] + sep + Join(tail, sep);
      ThreeSlices(s, i, |sep|);
      assert s[i..][..|sep|] == s[i..i + |sep|] == sep;
      assert s[i..][|sep|..] == rest;
  }

  /** No piece of `s.split(sep)` contains `sep`. */
  lemma {:induction false} SplitPiecesFree(s: string, sep: string)
    requires |sep| > 0
    ensures forall k :: 0 <= k < |Split(s, sep)| ==> !Contains(Split(s, sep)[k], sep)
    decreases |s|
  {
    match IndexOf(s, sep)
    case None =>
    case Some(i) =>
      SplitPiecesFree(s[i + |sep|..], sep);
      forall j: nat | j <= i
        ensures !OccursAt(s[..i], sep, j)
      {
        if j + |sep| <= i {
          assert s[..i][j..j + |sep|] == s[j..j + |sep|];
          assert !OccursAt(s, sep, j);
        }
      }
      assert !Contains(s[..i], sep);
  }

  /** A string without `sep` splits into itself alone. */
  lemma SplitWithout(s: string, sep: string)
    requires |sep| > 0 && !Contains(s, sep)
    ensures Split(s, sep) == [s]
  {
  }

  /**
   * No proper suffix of `sep` is also a prefix of it, so two occurrences of `sep` never overlap
   * and no occurrence can straddle the end of a piece and the separator after it.
   */
  predicate Unbordered(sep: string)
  {
    forall k :: 0 < k < |sep| ==> sep[k..] != sep[..|sep| - k]
  }

  /** The leftmost occurrence of an unbordered `sep` in `a + sep + b`, when `a` has none, is the one after `a`. */
  lemma SplitAfter(a: string, sep: string, b: string)
    requires |sep| > 0 && Unbordered(sep) && !Contains(a, sep)
    ensures Split(a + sep + b, sep) == [a] + Split(b, sep)
  {
    var t := a + sep + b;
    assert t[|a|..|a| + |sep|] == sep;
    assert OccursAt(t, sep, |a|);
    var i := IndexOf(t, sep).value;
    if i < |a| {
      NoEarlierOccurrence(a, sep, b, i);
    }
    assert i == |a|;
    assert t[..|a|] == a;
    assert t[|a| + |sep|..] == b;
  }

  lemma NoEarlierOccurrence(a: string, sep: string, b: string, i: nat)
    requires |sep| > 0 && Unbordered(sep) && !Contains(a, sep) && i < |a|
    ensures !OccursAt(a + sep + b, sep, i)
  {
    var t := a + sep + b;
    if i + |sep| <= |a| {
      assert a[i..i + |sep|] == t[i..i + |sep|];
      assert !OccursAt(a, sep, i);
    } else {
      // the candidate straddles the end of `a`: its tail would be a border of `sep`
      var k := |a| - i;
      assert sep[k..] != sep[..|sep| - k];
      assert t[i..i + |sep|][k..] == t[|a|..|a| + |sep|][..|sep| - k];
      assert t[|a|..|a| + |sep|] == sep;
    }
  }

  /**
   * With an unbordered separator, splitting the join of separator-free pieces gives the
   * pieces back: `Split` and `Join` are inverse.
   */
  lemma {:induction false} SplitJoin(parts: seq<string>, sep: string)
    requires |sep| > 0 && Unbordered(sep) && |parts| >= 1
    requires forall k :: 0 <= k < |parts| ==> !Contains(parts[k], sep)
    ensures Split(Join(parts, sep), sep) == parts
    decreases |parts|
  {
    if |parts| == 1 {
      SplitWithout(parts[0], sep);
    } else {
      SplitJoin(parts[1..], sep);
      SplitAfter(parts[0], sep, Join(parts[1..], sep));
      assert parts == [parts[0]] + parts[1..];
    }
  }

  /** A one-character separator occurs exactly when its character does. */
  lemma ContainsChar(s: string, sep: string)
    requires |sep| == 1
    ensures Contains(s, sep) <==> sep[0] in s
  {
    if sep[0] in s {
      var j :| 0 <= j < |s| && s[j] == sep[0];
      assert s[j..j + 1] == sep;
      assert OccursAt(s, sep, j);
    }
    if Contains(s, sep) {
      var j: nat :| j <= |s| && OccursAt(s, sep, j);
      assert s[j] == s[j..j + 1][0];
    }
  }

  /** Every character of a piece of `s.split(sep)` is a character of `s`. */
  lemma {:induction false} SplitPiecesWithin(s: string, sep: string)
    requires |sep| > 0
    ensures forall k, c :: 0 <= k < |Split(s, sep)| && c in Split(s, sep)[k] ==> c in s
    decreases |s|
  {
    match IndexOf(s, sep)
    case None =>
    case Some(i) =>
      var rest := s[i + |sep|..];
      SplitPiecesWithin(rest, sep);
      assert Split(s, sep) == [s[..i]] + Split(rest, sep);
      forall k, c | 0 <= k < |Split(s, sep)| && c in Split(s, sep)[k] ensures c in s {
        if k == 0 {
          assert c in s[..i];
        } else {
          assert c in Split(rest, sep)[k - 1];
          assert c in rest;
        }
      }
  }

  /** An occurrence inside `m` is an occurrence inside `a + m + b`. */
  lemma ContainsInfix(a: string, m: string, b: string, sep: string)
    requires Contains(m, sep)
    ensures Contains(a + m + b, sep)
  {
    var j: nat :| j <= |m| && OccursAt(m, sep, j);
    assert (a + m + b)[|a| + j..|a| + j + |sep|] == m[j..j + |sep|];
    assert OccursAt(a + m + b, sep, |a| + j);
  }

  /** `strip()` only removes characters, so it adds neither a character nor an occurrence of `sep`. */
  lemma StripWithin(s: string, sep: string)
    ensures forall c :: c in Strip(s) ==> c in s
    ensures Contains(Strip(s), sep) ==> Contains(s, sep)
  {
    var a, b := StripDecomposes(s);
    if Contains(Strip(s), sep) {
      ContainsInfix(a, Strip(s), b, sep);
    }
  }

  lemma UnborderedSeparators()
    ensures Unbordered(": ") && Unbordered(", ") && Unbordered("\n")
  {
    assert ": "[1..] == " " && ": "[..1] == ":";
    assert ", "[1..] == " " && ", "[..1] == ",";
  }

  /** The characters for which Python's `str.isspace()` holds, and so the ones `strip()` removes. */
  predicate IsSpace(c: char)
  {
    var n := c as int;
    n == 0x20 || 0x09 <= n <= 0x0D || 0x1C <= n <= 0x1F || n == 0x85 || n == 0xA0 ||
    n == 0x1680 || 0x2000 <= n <= 0x200A || n == 0x2028 || n == 0x2029 || n == 0x202F ||
    n == 0x205F || n == 0x3000
  }

  /** A string that `strip()` leaves as it is. */
  predicate Stripped(s: string)
  {
    |s| == 0 || (!IsSpace(s[0]) && !IsSpace(s[|s| - 1]))
  }

  /** The number of whitespace characters `s` starts with. */
  function LeadingSpaces(s: string): (n: nat)
    ensures n <= |s|
    ensures forall k :: 0 <= k < n ==> IsSpace(s[k])
    ensures n < |s| ==> !IsSpace(s[n])
  {
    if |s| > 0 && IsSpace(s[0]) then 1 + LeadingSpaces(s[1..]) else 0
  }

  /** The number of whitespace characters `s` ends with. */
  function TrailingSpaces(s: string): (n: nat)
    ensures n <= |s|
    ensures forall k :: |s| - n <= k < |s| ==> IsSpace(s[k])
    ensures n < |s| ==> !IsSpace(s[|s| - n - 1])
  {
    if |s| > 0 && IsSpace(s[|s| - 1]) then 1 + TrailingSpaces(s[..|s| - 1]) else 0
  }

  /**
   * Python `s.strip()`: what is left of `s` once its leading whitespace and then its trailing
   * whitespace are removed.
   */
  function Strip(s: string): (r: string)
    ensures Stripped(r)
    ensures |r| <= |s|
  {
    var left := s[LeadingSpaces(s)..];
    left[..|left| - TrailingSpaces(left)]
  }

  /** A sequence is its prefix of length `n`, then `j` more elements, then the rest. */
  lemma ThreeSlices<T>(s: seq<T>, n: nat, j: nat)
    requires n <= |s| && j <= |s| - n
    ensures s == s[..n] + s[n..][..j] + s[n..][j..]
  {
    assert s == s[..n] + s[n..];
    assert s[n..] == s[n..][..j] + s[n..][j..];
  }

  /**
   * `strip()` removes whitespace only: `s` is some whitespace, then `Strip(s)`, then some more
   * whitespace. With `Stripped(Strip(s))` this pins the result down exactly.
   */
  lemma StripDecomposes(s: string) returns (a: string, b: string)
    ensures s == a + Strip(s) + b
    ensures forall k :: 0 <= k < |a| ==> IsSpace(a[k])
    ensures forall k :: 0 <= k < |b| ==> IsSpace(b[k])
  {
    var n := LeadingSpaces(s);
    var left := s[n..];
    var m := TrailingSpaces(left);
    ThreeSlices(s, n, |left| - m);
    a, b := s[..n], left[|left| - m..];
    forall k | 0 <= k < |b| ensures IsSpace(b[k]) {
      assert b[k] == left[|left| - m + k];
    }
  }

  /** `strip()` does not change a string that neither starts nor ends with whitespace. */
  lemma StripStripped(s: string)
    requires Stripped(s)
    ensures Strip(s) == s
  {
  }
}
