/** The string operations of Go's `strings` and `strconv` packages that the
    repository relies on.  A string is a sequence of Unicode scalar values. */
module Text {

  datatype Option<+T> = None | Some(value: T)

  /** Go's `unicode.IsSpace`. */
  predicate IsSpace(c: char) {
    || '\U{0009}' <= c <= '\U{000D}' || c == ' ' || c == '\U{0085}' || c == '\U{00A0}'
    || c == '\U{1680}' || '\U{2000}' <= c <= '\U{200A}' || c == '\U{2028}' || c == '\U{2029}'
    || c == '\U{202F}' || c == '\U{205F}' || c == '\U{3000}'
  }

  /** The code points it accepts: Unicode's White_Space. */
  lemma SpaceCodePoints(c: char)
    ensures IsSpace(c) <==>
              || c as int in {0x9, 0xA, 0xB, 0xC, 0xD, 0x20, 0x85, 0xA0, 0x1680, 0x2028, 0x2029, 0x202F, 0x205F, 0x3000}
              || 0x2000 <= c as int <= 0x200A
  {}

  predicate IsHash(c: char) { c == '#' }

  predicate IsSlash(c: char) { c == '/' }

  /** `strings.TrimLeft`, the cutset given as a predicate. */
  function TrimLeft(s: string, cut: char -> bool): (r: string)
    ensures |r| <= |s|
  {
    if s != "" && cut(s[0]) then TrimLeft(s[1..], cut) else s
  }

  /** `strings.TrimRight`, the cutset given as a predicate. */
  function TrimRight(s: string, cut: char -> bool): (r: string)
    ensures |r| <= |s|
  {
    if s != "" && cut(s[|s| - 1]) then TrimRight(s[..|s| - 1], cut) else s
  }

  lemma {:induction false} TrimLeftResult(s: string, cut: char -> bool)
    ensures TrimLeft(s, cut) == s[|s| - |TrimLeft(s, cut)|..]
    ensures TrimLeft(s, cut) != "" ==> !cut(TrimLeft(s, cut)[0])
  {
    if s != "" && cut(s[0]) { TrimLeftResult(s[1..], cut); }
  }

  lemma {:induction false} TrimRightResult(s: string, cut: char -> bool)
    ensures TrimRight(s, cut) == s[..|TrimRight(s, cut)|]
    ensures TrimRight(s, cut) != "" ==> !cut(TrimRight(s, cut)[|TrimRight(s, cut)| - 1])
  {
    if s != "" && cut(s[|s| - 1]) { TrimRightResult(s[..|s| - 1], cut); }
  }

  /** TrimLeft drops exactly the longest prefix inside the cutset. */
  lemma {:induction false} TrimLeftAt(s: string, cut: char -> bool, k: nat)
    requires k <= |s| && (forall i :: 0 <= i < k ==> cut(s[i]))
    requires k < |s| ==> !cut(s[k])
    ensures TrimLeft(s, cut) == s[k..]
  {
    if k > 0 {
      TrimLeftAt(s[1..], cut, k - 1);
      assert s[1..][k - 1..] == s[k..];
    }
  }

  lemma {:induction false} TrimRightAt(s: string, cut: char -> bool, k: nat)
    requires k <= |s| && (forall i :: k <= i < |s| ==> cut(s[i]))
    requires k > 0 ==> !cut(s[k - 1])
    ensures TrimRight(s, cut) == s[..k]
  {
    if k < |s| {
      TrimRightAt(s[..|s| - 1], cut, k);
      assert s[..|s| - 1][..k] == s[..k];
    }
  }

  function TrimSpace(s: string): string {
    TrimRight(TrimLeft(s, IsSpace), IsSpace)
  }

  predicate Trimmed(s: string) {
    s != "" ==> !IsSpace(s[0]) && !IsSpace(s[|s| - 1])
  }

  /** TrimSpace shortens exactly the strings that are not trimmed already. */
  lemma TrimSpaceLength(s: string)
    ensures |TrimSpace(s)| <= |s|
    ensures |TrimSpace(s)| == |s| <==> Trimmed(s)
    ensures Trimmed(s) <==> TrimSpace(s) == s
  {
    var left := TrimLeft(s, IsSpace);
    TrimLeftResult(s, IsSpace);
    TrimRightResult(left, IsSpace);
    if Trimmed(s) {
      assert left == s;
    }
  }

  /** Index of the first `c`. */
  function IndexOf(s: string, c: char): (i: nat)
    requires c in s
    ensures i < |s| && s[i] == c && c !in s[..i]
  {
    if s[0] == c then 0
    else
      var i := 1 + IndexOf(s[1..], c);
      assert s[..i] == [s[0]] + s[1..][..i - 1];
      i
  }

  /** `strings.Split` by a one-character separator. */
  function Split(s: string, c: char): (parts: seq<string>)
    ensures |parts| >= 1
    ensures |parts| == 1 <==> c !in s
    ensures parts[0] <= s && c !in parts[0]
    decreases |s|
  {
    if c in s then [s[..IndexOf(s, c)]] + Split(s[IndexOf(s, c) + 1..], c) else [s]
  }

  lemma IndexAfterHead(head: string, c: char, rest: string)
    requires c !in head
    ensures IndexOf(head + [c] + rest, c) == |head|
  {
    var s := head + [c] + rest;
    var i := IndexOf(s, c);
    assert s[|head|] == c;
    assert forall k :: 0 <= k < |head| ==> s[k] == head[k];
    assert forall k :: 0 <= k < i ==> s[..i][k] == s[k];
  }

  /** A string cut at its first separator. */
  lemma SplitFirst(head: string, c: char, rest: string)
    requires c !in head
    ensures Split(head + [c] + rest, c) == [head] + Split(rest, c)
  {
    var s := head + [c] + rest;
    IndexAfterHead(head, c, rest);
    hide IndexOf;
    assert s[|head|] == c;
    assert s[..|head|] == head && s[|head| + 1..] == rest;
  }

  lemma SplitNone(s: string, c: char)
    requires c !in s
    ensures Split(s, c) == [s]
  {}

  /** Exactly two parts, when and only when there is exactly one separator. */
  lemma SplitInTwo(s: string, c: char)
    ensures |Split(s, c)| == 2 <==> exists k, v :: s == k + [c] + v && c !in k && c !in v
    ensures |Split(s, c)| == 2 ==>
              s == Split(s, c)[0] + [c] + Split(s, c)[1] && c !in Split(s, c)[1]
  {
    if c in s {
      var i := IndexOf(s, c);
      assert s == s[..i] + [c] + s[i + 1..];
      assert Split(s, c) == [s[..i]] + Split(s[i + 1..], c);
    }
    forall k, v | s == k + [c] + v && c !in k && c !in v
      ensures |Split(s, c)| == 2
    {
      SplitFirst(k, c, v);
    }
  }

  /** A separator-free head is determined by the joined text. */
  lemma CutAtFirst(a: string, x: string, b: string, y: string, c: char)
    requires c !in a && c !in b && a + [c] + x == b + [c] + y
    ensures a == b && x == y
  {
    SplitFirst(a, c, x);
    SplitFirst(b, c, y);
    var s := a + [c] + x;
    assert s[..|a|] == a && s[..|b|] == b;
    assert s[|a| + 1..] == x && s[|b| + 1..] == y;
  }

  /** A separator-free tail is determined by the joined text. */
  lemma CutAtLast(a: string, x: string, b: string, y: string, c: char)
    requires c !in x && c !in y && a + [c] + x == b + [c] + y
    ensures a == b && x == y
  {
    var s := a + [c] + x;
    assert s[|a|] == c && s[|b|] == c;
    assert forall k :: |a| < k < |s| ==> s[k] == x[k - |a| - 1];
    assert forall k :: |b| < k < |s| ==> s[k] == y[k - |b| - 1];
    assert s[..|a|] == a && s[..|b|] == b && s[|a| + 1..] == x && s[|b| + 1..] == y;
  }

  // ----- decimal numerals

  predicate IsDigit(c: char) { '0' <= c <= '9' }

  function DigitChar(d: nat): (c: char)
    requires d < 10
    ensures IsDigit(c) && DigitValue(c) == d
  {
    (48 + d) as char
  }

  function DigitValue(c: char): (d: nat)
    requires IsDigit(c)
    ensures d < 10
  {
    (c as int) - 48
  }

  predicate AllDigits(s: string) { forall i :: 0 <= i < |s| ==> IsDigit(s[i]) }

  /** The shortest decimal numeral of n. */
  function Digits(n: nat): (s: string)
    ensures s != "" && AllDigits(s)
    ensures s[0] == '0' <==> n == 0
    ensures n < 10 ==> |s| == 1
  {
    if n < 10 then [DigitChar(n)] else Digits(n / 10) + [DigitChar(n % 10)]
  }

  function NatValue(s: string): nat
    requires AllDigits(s)
  {
    if s == "" then 0 else 10 * NatValue(s[..|s| - 1]) + DigitValue(s[|s| - 1])
  }

  lemma {:induction false} NatValueOfDigits(n: nat)
    ensures NatValue(Digits(n)) == n
  {
    if n >= 10 {
      var s := Digits(n);
      assert s[..|s| - 1] == Digits(n / 10);
      NatValueOfDigits(n / 10);
    }
  }

  /** `%d` */
  function Decimal(n: int): (s: string)
    ensures s != ""
    ensures n >= 0 ==> AllDigits(s)
    ensures forall i :: 0 <= i < |s| ==> IsDigit(s[i]) || s[i] == '-'
  {
    if n < 0 then "-" + Digits(-n) else Digits(n)
  }
}
