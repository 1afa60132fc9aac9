/** Small string facilities the application relies on from Kotlin: nullable values,
    string templates over integers and nullable messages, `isBlank`, and
    `String.replace`. Each comes with the partner facts the rest of the model uses. */
module Text {

  /** A Kotlin nullable value. */
  datatype Option<+T> = None | Some(value: T)

  /** What a Kotlin string template prints for a nullable message: `null` prints as "null". */
  function Render(m: Option<string>): (r: string)
    ensures m.Some? ==> r == m.value
    ensures m.None? ==> r == "null"
  {
    match m
    case Some(s) => s
    case None => "null"
  }

  predicate StartsWith(s: string, prefix: string)
  {
    |prefix| <= |s| && s[..|prefix|] == prefix
  }

  /** `pat` occurs in `s` at position `i`. */
  predicate OccursAt(s: string, pat: string, i: nat)
  {
    i + |pat| <= |s| && s[i..i + |pat|] == pat
  }

  predicate Occurs(s: string, pat: string)
  {
    exists i: nat | i <= |s| :: OccursAt(s, pat, i)
  }

  // ---------------------------------------------------------------------------
  // Decimal rendering of integers, as a Kotlin template `"$n"` prints an Int.

  predicate IsDigit(c: char)
  {
    '0' <= c <= '9'
  }

  predicate AllDigits(s: string)
  {
    forall i :: 0 <= i < |s| ==> IsDigit(s[i])
  }

  function DigitChar(d: nat): (c: char)
    requires d < 10
    ensures IsDigit(c)
    ensures (c as int) - ('0' as int) == d
  {
    (('0' as int) + d) as char
  }

  /** The value of a string of decimal digits. */
  function DigitsValue(s: string): nat
    requires AllDigits(s)
  {
    if |s| == 0 then 0
    else DigitsValue(s[..|s| - 1]) * 10 + ((s[|s| - 1] as int) - ('0' as int))
  }

  /** Shortest decimal rendering of a natural number: no leading zero unless the
      number is zero itself; reading it back gives the number. */
  function NatToString(n: nat): (r: string)
    ensures |r| > 0 && AllDigits(r)
    ensures DigitsValue(r) == n
    ensures r[0] == '0' <==> n == 0
    ensures n == 0 ==> r == "0"
    decreases n
  {
    var d := [DigitChar(n % 10)];
    if n < 10 then d
    else
      var prefix := NatToString(n / 10);
      assert (prefix + d)[..|prefix + d| - 1] == prefix;
      prefix + d
  }

  /** Decimal rendering of an integer with a leading '-' when negative: the sign
      appears exactly for negative numbers, no digit run has a leading zero, and
      reading it back gives the number. */
  function IntToString(n: int): (r: string)
    ensures ParseInt(r) == Some(n)
    ensures |r| > 0 && (r[0] == '-' <==> n < 0)
    ensures n < 0 ==> |r| > 1 && r[1] != '0'
    ensures n >= 0 ==> (r[0] == '0' <==> n == 0) && (n == 0 ==> r == "0")
  {
    if n < 0 then
      var digits := NatToString(-n);
      assert ("-" + digits)[1..] == digits;
      "-" + digits
    else NatToString(n)
  }

  /** Reads back what IntToString writes. */
  function ParseInt(s: string): Option<int>
  {
    if 1 < |s| && s[0] == '-' && AllDigits(s[1..]) then Some(-(DigitsValue(s[1..]) as int))
    else if 0 < |s| && AllDigits(s) then Some(DigitsValue(s))
    else None
  }

  lemma IntToStringInjective(a: int, b: int)
    ensures IntToString(a) == IntToString(b) <==> a == b
  {
    if IntToString(a) == IntToString(b) {
      assert Some(a) == ParseInt(IntToString(a)) == ParseInt(IntToString(b)) == Some(b);
    }
  }

  // ---------------------------------------------------------------------------
  // Kotlin `isBlank`: every character satisfies `Char.isWhitespace`, which on the
  // JVM is `Character.isWhitespace(c) || Character.isSpaceChar(c)`.

  predicate IsWhitespace(c: char)
  {
    || '\U{0009}' <= c <= '\U{000D}'      // tab, line feed, vertical tab, form feed, carriage return
    || '\U{001C}' <= c <= '\U{0020}'      // information separators and space
    || c == '\U{00A0}' || c == '\U{1680}'
    || '\U{2000}' <= c <= '\U{200A}'
    || c == '\U{2028}' || c == '\U{2029}' || c == '\U{202F}' || c == '\U{205F}' || c == '\U{3000}'
  }

  /** Kotlin `isBlank`, scanned one character at a time: true exactly when every
      character is whitespace, so in particular for the empty string. */
  function IsBlank(s: string): (b: bool)
    ensures b <==> forall i :: 0 <= i < |s| ==> IsWhitespace(s[i])
    ensures |s| == 0 ==> b
    decreases |s|
  {
    if |s| == 0 then true
    else
      assert forall i :: 1 <= i < |s| ==> s[i] == s[1..][i - 1];
      IsWhitespace(s[0]) && IsBlank(s[1..])
  }

  // ---------------------------------------------------------------------------
  // Splitting at the first occurrence of a separator; the decoder the display
  // strings are checked against.

  /** The text before and after the first occurrence of `sep` in `s`. */
  function Cut(s: string, sep: string): (r: Option<(string, string)>)
    requires |sep| > 0
    ensures r.Some? ==> s == r.value.0 + sep + r.value.1
    ensures r.Some? ==> forall i: nat :: i < |r.value.0| ==> !OccursAt(s, sep, i)
    ensures r.None? ==> !Occurs(s, sep)
    decreases |s|
  {
    if StartsWith(s, sep) then
      assert OccursAt(s, sep, 0);
      Some(([], s[|sep|..]))
    else if |s| == 0 then None
    else
      match Cut(s[1..], sep)
      case None =>
        assert forall i: nat :: OccursAt(s, sep, i + 1) ==> OccursAt(s[1..], sep, i);
        assert !OccursAt(s, sep, 0);
        assert forall i: nat :: OccursAt(s, sep, i) ==> i == 0 || OccursAt(s[1..], sep, i - 1);
        None
      case Some((before, after)) =>
        assert forall i: nat :: 0 < i && OccursAt(s, sep, i) ==> OccursAt(s[1..], sep, i - 1);
        Some(([s[0]] + before, after))
  }

  /** A field that does not contain the separator's first character comes back
      intact from `a + sep + b`, and so does what follows the separator. */
  lemma {:induction false} CutJoin(a: string, sep: string, b: string)
    requires |sep| > 0 && sep[0] !in a
    ensures Cut(a + sep + b, sep) == Some((a, b))
    decreases |a|
  {
    var s := a + sep + b;
    if |a| == 0 {
      assert s == sep + b;
      assert StartsWith(s, sep);
      assert s[|sep|..] == b;
    } else {
      assert s[0] == a[0] != sep[0];
      assert !StartsWith(s, sep);
      assert s[1..] == a[1..] + sep + b;
      CutJoin(a[1..], sep, b);
      assert [s[0]] + a[1..] == a;
    }
  }

  /** Strips a known suffix; the decoder for "<value><unit>" strings. */
  function StripSuffix(s: string, suffix: string): (r: Option<string>)
    ensures r.Some? <==> |suffix| <= |s| && s[|s| - |suffix|..] == suffix
    ensures r.Some? ==> r.value + suffix == s
  {
    if |suffix| <= |s| && s[|s| - |suffix|..] == suffix then
      assert s[..|s| - |suffix|] + s[|s| - |suffix|..] == s;
      Some(s[..|s| - |suffix|])
    else None
  }

  lemma StripSuffixJoin(a: string, suffix: string)
    ensures StripSuffix(a + suffix, suffix) == Some(a)
  {
    var s := a + suffix;
    assert s[|s| - |suffix|..] == suffix;
    assert s[..|s| - |suffix|] == a;
  }

  function StripPrefix(s: string, prefix: string): (r: Option<string>)
    ensures r.Some? <==> StartsWith(s, prefix)
    ensures r.Some? ==> prefix + r.value == s
  {
    if StartsWith(s, prefix) then
      assert s[..|prefix|] + s[|prefix|..] == s;
      Some(s[|prefix|..])
    else None
  }

  lemma StripPrefixJoin(prefix: string, a: string)
    ensures StripPrefix(prefix + a, prefix) == Some(a)
  {
    var s := prefix + a;
    assert s[..|prefix|] == prefix;
    assert s[|prefix|..] == a;
  }

  // ---------------------------------------------------------------------------
  // Kotlin `String.replace(oldValue, newValue)`: every non-overlapping occurrence of `oldValue`,
  // scanned left to right, is replaced by `newValue`.

  /** Every character of the text is either kept or part of a replaced
      occurrence, so a replacement of the target's own length keeps the length. */
  function ReplaceAll(s: string, target: string, replacement: string): (r: string)
    requires |target| > 0
    ensures |replacement| == |target| ==> |r| == |s|
    ensures |s| == 0 ==> r == []
    decreases |s|
  {
    if StartsWith(s, target) then replacement + ReplaceAll(s[|target|..], target, replacement)
    else if |s| == 0 then []
    else [s[0]] + ReplaceAll(s[1..], target, replacement)
  }

  /** With no occurrence of the target, nothing is replaced. */
  lemma {:induction false} ReplaceAllAbsent(s: string, target: string, replacement: string)
    requires |target| > 0 && !Occurs(s, target)
    ensures ReplaceAll(s, target, replacement) == s
    decreases |s|
  {
    assert !OccursAt(s, target, 0);
    if |s| > 0 {
      forall i: nat ensures !OccursAt(s[1..], target, i) {
        assert !OccursAt(s, target, i + 1);
      }
      ReplaceAllAbsent(s[1..], target, replacement);
      assert [s[0]] + s[1..] == s;
    }
  }

  /** Kotlin's `replace` rewrites the first occurrence and carries on after it:
      when `k` is the first position where `target` occurs, the text before it is
      kept, the occurrence becomes the replacement, and the rest is rewritten in
      the same way. */
  lemma {:induction false} ReplaceAllAtFirst(s: string, k: nat, target: string, replacement: string)
    requires |target| > 0 && OccursAt(s, target, k)
    requires forall i: nat :: i < k ==> !OccursAt(s, target, i)
    ensures ReplaceAll(s, target, replacement) ==
      s[..k] + replacement + ReplaceAll(s[k + |target|..], target, replacement)
    decreases k
  {
    if k == 0 {
      ReplaceAllHere(s, target, replacement);
    } else {
      var tail := s[1..];
      var rest := s[k + |target|..];
      ReplaceAllPast(s, target, replacement);
      ShiftOccurrences(s, k, target);
      ReplaceAllAtFirst(tail, k - 1, target, replacement);
      assert tail[k - 1 + |target|..] == rest;
      PrependToSplit(s, k, ReplaceAll(s, target, replacement), ReplaceAll(tail, target, replacement),
                     replacement, ReplaceAll(rest, target, replacement));
    }
  }

  /** The first character put back in front of a split of the tail extends the
      split's first part by one. */
  lemma PrependToSplit(s: string, k: nat, whole: string, rewrittenTail: string, middle: string, after: string)
    requires 0 < k <= |s|
    requires whole == [s[0]] + rewrittenTail
    requires rewrittenTail == s[1..][..k - 1] + middle + after
    ensures whole == s[..k] + middle + after
  {
    assert s[..k] == [s[0]] + s[1..][..k - 1];
  }

  lemma ReplaceAllHere(s: string, target: string, replacement: string)
    requires |target| > 0 && OccursAt(s, target, 0)
    ensures ReplaceAll(s, target, replacement) == replacement + ReplaceAll(s[|target|..], target, replacement)
  {
    assert s[..|target|] == s[0..|target|];
  }

  lemma ReplaceAllPast(s: string, target: string, replacement: string)
    requires |target| > 0 && |s| > 0 && !OccursAt(s, target, 0)
    ensures ReplaceAll(s, target, replacement) == [s[0]] + ReplaceAll(s[1..], target, replacement)
  {
    if |target| <= |s| {
      assert s[..|target|] == s[0..|target|];
    }
  }

  /** Dropping the first character moves every occurrence one place to the left. */
  lemma ShiftOccurrences(s: string, k: nat, target: string)
    requires 0 < k && OccursAt(s, target, k)
    requires forall i: nat :: i < k ==> !OccursAt(s, target, i)
    ensures OccursAt(s[1..], target, k - 1)
    ensures forall i: nat :: i < k - 1 ==> !OccursAt(s[1..], target, i)
  {
    var t := s[1..];
    forall i: nat | i < k - 1
      ensures !OccursAt(t, target, i)
    {
      assert !OccursAt(s, target, i + 1);
      if i + |target| <= |t| {
        assert t[i..i + |target|] == s[i + 1..i + 1 + |target|];
      }
    }
    assert t[k - 1..k - 1 + |target|] == s[k..k + |target|];
  }

  /** A prefix in which `target` cannot start passes through unchanged. */
  lemma {:induction false} ReplaceAllPrefix(p: string, s: string, target: string, replacement: string)
    requires |target| > 0 && target[0] !in p
    ensures ReplaceAll(p + s, target, replacement) == p + ReplaceAll(s, target, replacement)
    decreases |p|
  {
    if |p| > 0 {
      var t := p + s;
      assert t[0] == p[0] != target[0];
      assert !StartsWith(t, target);
      assert t[1..] == p[1..] + s;
      ReplaceAllPrefix(p[1..], s, target, replacement);
      assert [p[0]] + p[1..] == p;
    } else {
      assert p + s == s;
    }
  }

  /** A prefix of a rewritten string that cannot contain the start of a
      replacement was already a prefix of the original. */
  lemma {:induction false} ReplaceAllKeepsPrefix(t: string, q: string, target: string, replacement: string)
    requires |target| > 0 && |replacement| > 0 && replacement[0] !in q
    requires StartsWith(ReplaceAll(t, target, replacement), q)
    ensures StartsWith(t, q)
    decreases |q|
  {
    if |q| > 0 {
      var r := ReplaceAll(t, target, replacement);
      assert r[0] == q[0];
      assert !StartsWith(t, target);
      assert |t| > 0;
      var rest := ReplaceAll(t[1..], target, replacement);
      assert r == [t[0]] + rest;
      assert rest[..|q| - 1] == q[1..];
      ReplaceAllKeepsPrefix(t[1..], q[1..], target, replacement);
      assert t[..|q|] == [t[0]] + t[1..][..|q| - 1];
    }
  }

  /** When no replacement contains the start of `target`, and no tail of `target`
      can begin with the start of a replacement, the rewritten string contains no
      `target` at all: every occurrence has been replaced. */
  lemma {:induction false} ReplaceAllLeavesNone(s: string, target: string, replacement: string)
    requires |target| > 0 && |replacement| > 0
    requires target[0] !in replacement && replacement[0] !in target[1..]
    ensures !Occurs(ReplaceAll(s, target, replacement), target)
    decreases |s|
  {
    var r := ReplaceAll(s, target, replacement);
    if StartsWith(s, target) {
      var rest := ReplaceAll(s[|target|..], target, replacement);
      ReplaceAllLeavesNone(s[|target|..], target, replacement);
      assert r == replacement + rest;
      forall i: nat ensures !OccursAt(r, target, i) {
        if i < |replacement| {
          assert r[i] == replacement[i] != target[0];
        } else {
          var j := i - |replacement|;
          assert !OccursAt(rest, target, j);
          if i + |target| <= |r| {
            assert r[i..i + |target|] == rest[j..j + |target|];
          }
        }
      }
    } else if |s| > 0 {
      var rest := ReplaceAll(s[1..], target, replacement);
      ReplaceAllLeavesNone(s[1..], target, replacement);
      assert r == [s[0]] + rest;
      forall i: nat ensures !OccursAt(r, target, i) {
        if i == 0 {
          if OccursAt(r, target, 0) {
            assert StartsWith(rest, target[1..]) by {
              assert rest[..|target| - 1] == r[1..|target|] == target[1..];
            }
            ReplaceAllKeepsPrefix(s[1..], target[1..], target, replacement);
          }
        } else {
          assert !OccursAt(rest, target, i - 1);
          if i + |target| <= |r| {
            assert r[i..i + |target|] == rest[i - 1..i - 1 + |target|];
          }
        }
      }
    }
  }

  /** A prefix that holds no start of `target` adds no occurrence of it. */
  lemma NoOccurrenceAfterPrefix(p: string, s: string, target: string)
    requires |target| > 0 && target[0] !in p && !Occurs(s, target)
    ensures !Occurs(p + s, target)
  {
    forall i: nat ensures !OccursAt(p + s, target, i) {
      if i < |p| {
        assert (p + s)[i] == p[i];
      } else {
        var j := i - |p|;
        assert !OccursAt(s, target, j);
        if i + |target| <= |p + s| {
          assert (p + s)[i..i + |target|] == s[j..j + |target|];
        }
      }
    }
  }
}
