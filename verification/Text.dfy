/** The few string operations the models share: white-space trimming, ASCII case
    mapping and decimal printing, each with the facts the proofs need. */
module Text {

  /** The Unicode White_Space property, which is what Go's strings.TrimSpace strips. */
  predicate IsSpace(c: char) {
    var n := c as int;
    9 <= n <= 13 || n == 0x20 || n == 0x85 || n == 0xA0 || n == 0x1680 || 0x2000 <= n <= 0x200A
    || n == 0x2028 || n == 0x2029 || n == 0x202F || n == 0x205F || n == 0x3000
  }

  predicate AllSpace(s: string) {
    forall i | 0 <= i < |s| :: IsSpace(s[i])
  }

  /** No white space at either end. */
  predicate Trimmed(s: string) {
    s == "" || (!IsSpace(s[0]) && !IsSpace(s[|s| - 1]))
  }

  function TrimLeft(s: string): string {
    if s != "" && IsSpace(s[0]) then TrimLeft(s[1..]) else s
  }

  function TrimRight(s: string): string {
    if s != "" && IsSpace(s[|s| - 1]) then TrimRight(s[..|s| - 1]) else s
  }

  function TrimSpace(s: string): string {
    TrimRight(TrimLeft(s))
  }

  lemma {:induction false} TrimLeftSplits(s: string) returns (left: string)
    ensures AllSpace(left) && s == left + TrimLeft(s)
    ensures TrimLeft(s) == "" || !IsSpace(TrimLeft(s)[0])
  {
    if s != "" && IsSpace(s[0]) {
      var rest := TrimLeftSplits(s[1..]);
      left := [s[0]] + rest;
    } else {
      left := "";
    }
  }

  lemma {:induction false} TrimRightSplits(s: string) returns (right: string)
    ensures AllSpace(right) && s == TrimRight(s) + right
    ensures TrimRight(s) == "" || !IsSpace(TrimRight(s)[|TrimRight(s)| - 1])
  {
    if s != "" && IsSpace(s[|s| - 1]) {
      var rest := TrimRightSplits(s[..|s| - 1]);
      right := rest + [s[|s| - 1]];
    } else {
      right := "";
    }
  }

  /** Trimming removes white space from the two ends and nothing else. */
  lemma TrimSpaceSplits(s: string) returns (left: string, right: string)
    ensures AllSpace(left) && AllSpace(right)
    ensures s == left + TrimSpace(s) + right && Trimmed(TrimSpace(s))
  {
    left := TrimLeftSplits(s);
    right := TrimRightSplits(TrimLeft(s));
    assert TrimLeft(s) == TrimSpace(s) + right;
    if TrimSpace(s) != "" {
      assert TrimSpace(s)[0] == TrimLeft(s)[0];
    }
  }

  lemma {:induction false} TrimLeftSkips(left: string, rest: string)
    requires AllSpace(left)
    ensures TrimLeft(left + rest) == TrimLeft(rest)
  {
    if left == "" {
      assert left + rest == rest;
    } else {
      assert (left + rest)[1..] == left[1..] + rest;
      TrimLeftSkips(left[1..], rest);
    }
  }

  lemma {:induction false} TrimRightSkips(rest: string, right: string)
    requires AllSpace(right)
    ensures TrimRight(rest + right) == TrimRight(rest)
  {
    if right == "" {
      assert rest + right == rest;
    } else {
      var n := |right| - 1;
      assert (rest + right)[..|rest + right| - 1] == rest + right[..n];
      TrimRightSkips(rest, right[..n]);
    }
  }

  /** The core of a padded string is what trimming returns. */
  lemma TrimSpaceUnpads(left: string, core: string, right: string)
    requires AllSpace(left) && AllSpace(right) && Trimmed(core)
    ensures TrimSpace(left + core + right) == core
  {
    assert left + core + right == left + (core + right);
    TrimLeftSkips(left, core + right);
    if core == "" {
      assert core + right == right + "";
      TrimLeftSkips(right, "");
    } else {
      assert TrimLeft(core + right) == core + right;
      TrimRightSkips(core, right);
    }
  }

  lemma TrimmedFixed(s: string)
    requires Trimmed(s)
    ensures TrimSpace(s) == s
  {
    assert "" + s + "" == s;
    TrimSpaceUnpads("", s, "");
  }

  lemma TrimTwice(s: string)
    ensures Trimmed(TrimSpace(s)) && TrimSpace(TrimSpace(s)) == TrimSpace(s)
  {
    var left, right := TrimSpaceSplits(s);
    TrimmedFixed(TrimSpace(s));
  }

  function LowerChar(c: char): char {
    if 'A' <= c <= 'Z' then ((c as int) + 32) as char else c
  }

  function UpperChar(c: char): char {
    if 'a' <= c <= 'z' then ((c as int) - 32) as char else c
  }

  function ToLower(s: string): string {
    seq(|s|, i requires 0 <= i < |s| => LowerChar(s[i]))
  }

  function ToUpper(s: string): string {
    seq(|s|, i requires 0 <= i < |s| => UpperChar(s[i]))
  }

  predicate EqualFold(a: string, b: string) {
    ToLower(a) == ToLower(b)
  }

  /** Two characters that differ, if at all, as the two cases of one letter. */
  predicate SameLetter(a: char, b: char) {
    a == b || ('A' <= a <= 'Z' && b as int == a as int + 32) || ('A' <= b <= 'Z' && a as int == b as int + 32)
  }

  /** What case folding identifies, and what it leaves apart. */
  lemma EqualFoldMeans(a: string, b: string)
    ensures EqualFold(a, b) <==> |a| == |b| && forall i | 0 <= i < |a| :: SameLetter(a[i], b[i])
  {
    if EqualFold(a, b) {
      assert |a| == |ToLower(a)| == |b|;
      forall i | 0 <= i < |a| ensures SameLetter(a[i], b[i]) {
        assert ToLower(a)[i] == ToLower(b)[i];
      }
    }
  }

  lemma UpperFolds(s: string)
    ensures EqualFold(ToUpper(s), s) && forall i | 0 <= i < |s| :: !('a' <= ToUpper(s)[i] <= 'z')
  {
  }

  /** White space among the ASCII characters: tab, line feed, vertical tab, form feed, carriage
      return and the space itself. */
  lemma AsciiSpace(c: char)
    requires c < 128 as char
    ensures IsSpace(c) <==> c in "\t\n\U{000B}\U{000C}\r "
  {
  }

  function Digit(n: nat): char
    requires n < 10
  {
    (('0' as int) + n) as char
  }

  /** Decimal printing, as %d prints a non-negative integer. */
  function Decimal(n: nat): (s: string)
    ensures |s| == 1 <==> n < 10
    ensures s != ""
  {
    if n < 10 then [Digit(n)] else Decimal(n / 10) + [Digit(n % 10)]
  }

  lemma {:induction false} DecimalInjective(a: nat, b: nat)
    requires Decimal(a) == Decimal(b)
    ensures a == b
  {
    var s, t := Decimal(a), Decimal(b);
    assert s[|s| - 1] == Digit(a % 10) && t[|t| - 1] == Digit(b % 10);
    if 10 <= a && 10 <= b {
      assert s[..|s| - 1] == Decimal(a / 10) && t[..|t| - 1] == Decimal(b / 10);
      DecimalInjective(a / 10, b / 10);
    }
  }

  /** The number a text of digits stands for. */
  function Value(s: string): nat
    requires forall i | 0 <= i < |s| :: '0' <= s[i] <= '9'
  {
    if s == "" then 0 else 10 * Value(s[..|s| - 1]) + (s[|s| - 1] as int - '0' as int)
  }

  lemma {:induction false} DecimalReads(n: nat)
    ensures (forall i | 0 <= i < |Decimal(n)| :: '0' <= Decimal(n)[i] <= '9') && Value(Decimal(n)) == n
  {
    if 10 <= n {
      DecimalReads(n / 10);
      assert Decimal(n)[..|Decimal(n)| - 1] == Decimal(n / 10);
    } else {
      assert Decimal(n)[..0] == "";
    }
  }

  /** The part of s before and after the first occurrence of sep, as strings.Cut gives. */
  function IndexOf(s: string, sep: char): (i: nat)
    ensures i <= |s|
    ensures forall j | 0 <= j < i :: s[j] != sep
    ensures i < |s| ==> s[i] == sep
  {
    if s == "" || s[0] == sep then 0 else 1 + IndexOf(s[1..], sep)
  }

  predicate OccursAt(s: string, part: string, i: nat) {
    i + |part| <= |s| && s[i..i + |part|] == part
  }

  predicate Contains(s: string, part: string) {
    exists i | 0 <= i <= |s| :: OccursAt(s, part, i)
  }
}
