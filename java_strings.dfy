/**
 * The few java.lang.String operations the analyzers use, on Dafny strings:
 * replace(char, char), replace(CharSequence, CharSequence), startsWith and endsWith.
 */
module JavaStrings {

  /** `s.startsWith(prefix)` */
  predicate StartsWith(s: string, prefix: string) {
    |prefix| <= |s| && s[..|prefix|] == prefix
  }

  /** `s.endsWith(suffix)` */
  predicate EndsWith(s: string, suffix: string) {
    |suffix| <= |s| && s[|s| - |suffix|..] == suffix
  }

  /** `target` occurs in `s` starting at index `i`. */
  predicate OccursAt(s: string, target: string, i: int) {
    0 <= i && i + |target| <= |s| && s[i..i + |target|] == target
  }

  /** `s.replace(from, to)` for two chars: every occurrence of `from` becomes `to`. */
  function ReplaceChar(s: string, from: char, to: char): (r: string)
    ensures |r| == |s|
    ensures forall i :: 0 <= i < |s| ==> r[i] == if s[i] == from then to else s[i]
  {
    if s == [] then [] else [if s[0] == from then to else s[0]] + ReplaceChar(s[1..], from, to)
  }

  /**
   * `s.replace(target, replacement)` for two strings: scans left to right and
   * replaces every non-overlapping occurrence of `target`. Like Java, an empty
   * target puts the replacement before every character and at the end.
   */
  function ReplaceAll(s: string, target: string, replacement: string): string
    decreases |s|
  {
    if target == [] then
      if s == [] then replacement
      else replacement + [s[0]] + ReplaceAll(s[1..], target, replacement)
    else if |s| < |target| then s
    else if s[..|target|] == target then replacement + ReplaceAll(s[|target|..], target, replacement)
    else [s[0]] + ReplaceAll(s[1..], target, replacement)
  }

  /** Replacing a one-character target by a one-character string is `replace(char, char)`. */
  lemma {:induction false} ReplaceAllSingleChar(s: string, from: char, to: char)
    ensures ReplaceAll(s, [from], [to]) == ReplaceChar(s, from, to)
    decreases |s|
  {
    if s != [] {
      ReplaceAllSingleChar(s[1..], from, to);
      if s[0] == from {
        assert s[..1] == [from];
      } else {
        assert s[..1] != [from];
      }
    }
  }

  /** Every character of the result comes from the input or from the replacement. */
  lemma {:induction false} ReplaceAllChars(s: string, target: string, replacement: string, c: char)
    requires c in ReplaceAll(s, target, replacement)
    ensures c in s || c in replacement
    decreases |s|
  {
    var r := ReplaceAll(s, target, replacement);
    if target == [] {
      if s != [] {
        var rest := ReplaceAll(s[1..], target, replacement);
        assert r == replacement + [s[0]] + rest;
        if c in rest {
          ReplaceAllChars(s[1..], target, replacement, c);
        }
      }
    } else if |s| < |target| {
    } else if s[..|target|] == target {
      var rest := ReplaceAll(s[|target|..], target, replacement);
      assert r == replacement + rest;
      if c in rest {
        ReplaceAllChars(s[|target|..], target, replacement, c);
      }
    } else {
      var rest := ReplaceAll(s[1..], target, replacement);
      assert r == [s[0]] + rest;
      if c in rest {
        ReplaceAllChars(s[1..], target, replacement, c);
      }
    }
  }

  /** A character in neither the input nor the replacement is not in the result. */
  lemma {:induction false} ReplaceAllAbsentChar(s: string, target: string, replacement: string, c: char)
    requires c !in s && c !in replacement
    ensures c !in ReplaceAll(s, target, replacement)
    decreases |s|
  {
    if target == [] {
      if s != [] {
        assert c !in s[1..] by { assert forall k :: 0 <= k < |s| - 1 ==> s[1..][k] == s[k + 1]; }
        ReplaceAllAbsentChar(s[1..], target, replacement, c);
      }
    } else if |s| < |target| {
    } else if s[..|target|] == target {
      var rest := s[|target|..];
      assert c !in rest by { assert forall k :: 0 <= k < |rest| ==> rest[k] == s[k + |target|]; }
      ReplaceAllAbsentChar(rest, target, replacement, c);
    } else {
      assert c !in s[1..] by { assert forall k :: 0 <= k < |s| - 1 ==> s[1..][k] == s[k + 1]; }
      ReplaceAllAbsentChar(s[1..], target, replacement, c);
    }
  }

  /** Replacing a character by a string without it removes every occurrence of that character. */
  lemma {:induction false} ReplaceAllRemovesChar(s: string, c: char, replacement: string)
    requires c !in replacement
    ensures c !in ReplaceAll(s, [c], replacement)
    decreases |s|
  {
    if s != [] {
      ReplaceAllRemovesChar(s[1..], c, replacement);
      if s[0] == c {
        assert s[..1] == [c];
        assert s[1..] == s[|[c]|..];
      } else {
        assert s[..1] != [c];
      }
    }
  }

  /** A non-empty target that never occurs leaves the string unchanged. */
  lemma {:induction false} ReplaceAllNoOccurrence(s: string, target: string, replacement: string)
    requires target != []
    requires forall i :: !OccursAt(s, target, i)
    ensures ReplaceAll(s, target, replacement) == s
    decreases |s|
  {
    if |s| >= |target| {
      assert !OccursAt(s, target, 0);
      forall i | OccursAt(s[1..], target, i) ensures OccursAt(s, target, i + 1) {
        assert s[i + 1..i + 1 + |target|] == s[1..][i..i + |target|];
      }
      ReplaceAllNoOccurrence(s[1..], target, replacement);
      assert s == [s[0]] + s[1..];
    }
  }

  /** A target containing a character the string lacks never occurs in it. */
  lemma AbsentCharNoOccurrence(s: string, target: string, c: char)
    requires c in target && c !in s
    ensures forall i :: !OccursAt(s, target, i)
  {
    var k :| 0 <= k < |target| && target[k] == c;
    forall i ensures !OccursAt(s, target, i) {
      if 0 <= i && i + |target| <= |s| {
        assert s[i..i + |target|][k] == s[i + k];
      }
    }
  }

  /** No occurrence of the target starts inside a prefix that lacks the target's first character. */
  lemma NoOccurrenceInPrefix(a: string, b: string, target: string)
    requires target != [] && target[0] !in a
    ensures forall i :: 0 <= i < |a| ==> !OccursAt(a + b, target, i)
  {
    forall i | 0 <= i < |a| ensures !OccursAt(a + b, target, i) {
      assert (a + b)[i] == a[i];
      if i + |target| <= |a + b| {
        assert (a + b)[i..i + |target|][0] == (a + b)[i];
      }
    }
  }

  /** A leading occurrence of the target is replaced and scanning resumes after it. */
  lemma ReplaceAllLeading(target: string, rest: string, replacement: string)
    requires target != []
    ensures ReplaceAll(target + rest, target, replacement) == replacement + ReplaceAll(rest, target, replacement)
  {
    var s := target + rest;
    assert s[..|target|] == target;
    assert s[|target|..] == rest;
  }

  /**
   * When no occurrence of the target starts inside `a`, the scan copies `a`
   * unchanged and goes on with `b`.
   */
  lemma {:induction false} ReplaceAllCopiesPrefix(a: string, b: string, target: string, replacement: string)
    requires target != []
    requires forall i :: 0 <= i < |a| ==> !OccursAt(a + b, target, i)
    ensures ReplaceAll(a + b, target, replacement) == a + ReplaceAll(b, target, replacement)
    decreases |a|
  {
    if a != [] {
      var s := a + b;
      assert s[1..] == a[1..] + b;
      forall i | OccursAt(a[1..] + b, target, i) ensures OccursAt(s, target, i + 1) {
        assert s[1..][i..i + |target|] == s[i + 1..i + 1 + |target|];
      }
      ReplaceAllCopiesPrefix(a[1..], b, target, replacement);
      if |s| < |target| {
        assert ReplaceAll(a[1..] + b, target, replacement) == a[1..] + b;
        assert ReplaceAll(b, target, replacement) == b;
        assert ReplaceAll(s, target, replacement) == s;
      } else {
        assert !OccursAt(s, target, 0);
        assert ReplaceAll(s, target, replacement) == [s[0]] + ReplaceAll(s[1..], target, replacement);
        assert s[0] == a[0];
        calc {
          ReplaceAll(s, target, replacement);
          [a[0]] + ReplaceAll(a[1..] + b, target, replacement);
          [a[0]] + (a[1..] + ReplaceAll(b, target, replacement));
          { assert a == [a[0]] + a[1..]; }
          a + ReplaceAll(b, target, replacement);
        }
      }
    } else {
      assert a + b == b;
    }
  }

  /** `replace(char, char)` distributes over concatenation. */
  lemma ReplaceCharConcat(a: string, b: string, from: char, to: char)
    ensures ReplaceChar(a + b, from, to) == ReplaceChar(a, from, to) + ReplaceChar(b, from, to)
  {
    var l, r := ReplaceChar(a + b, from, to), ReplaceChar(a, from, to) + ReplaceChar(b, from, to);
    assert |l| == |r|;
    forall i | 0 <= i < |l| ensures l[i] == r[i] {
      if i < |a| {
        assert (a + b)[i] == a[i];
      } else {
        assert (a + b)[i] == b[i - |a|];
      }
    }
  }

  /** `replace(char, char)` on `x`, the old character, then `y`, where `x` lacks the old character. */
  lemma ReplaceCharJoin(x: string, y: string, from: char, to: char)
    requires from !in x
    ensures ReplaceChar(x + [from] + y, from, to) == x + [to] + ReplaceChar(y, from, to)
  {
    ReplaceCharConcat(x + [from], y, from, to);
    ReplaceCharConcat(x, [from], from, to);
    ReplaceCharAbsent(x, from, to);
    assert ReplaceChar([from], from, to) == [to];
  }

  /** Replacing a character the string does not contain changes nothing. */
  lemma ReplaceCharAbsent(s: string, from: char, to: char)
    requires from !in s
    ensures ReplaceChar(s, from, to) == s
  {
    var r := ReplaceChar(s, from, to);
    assert forall i :: 0 <= i < |s| ==> r[i] == s[i];
  }

  /** Swapping `a` to `b` and back restores any string that had no `b` in it. */
  lemma ReplaceCharRoundTrip(s: string, a: char, b: char)
    requires b !in s
    ensures ReplaceChar(ReplaceChar(s, a, b), b, a) == s
  {
    var r := ReplaceChar(ReplaceChar(s, a, b), b, a);
    forall i | 0 <= i < |s| ensures r[i] == s[i] {
      assert s[i] != b;
    }
  }

  /** A prefix is preserved by `replace(char, char)`. */
  lemma ReplaceCharStartsWith(s: string, prefix: string, from: char, to: char)
    requires StartsWith(s, prefix)
    ensures StartsWith(ReplaceChar(s, from, to), ReplaceChar(prefix, from, to))
  {
    var r, p := ReplaceChar(s, from, to), ReplaceChar(prefix, from, to);
    forall i | 0 <= i < |p| ensures r[..|p|][i] == p[i] {
      assert s[..|prefix|][i] == prefix[i];
    }
    assert r[..|p|] == p;
  }
}
