/** Strings as Go's strings and fmt packages see them.

    Replacing every occurrence of a pattern, splitting at a character and
    printing numbers in decimal, each with the laws that the rest of the project
    needs. */
module Text {

  // ---------------------------------------------------------------- replacing

  /** strings.ReplaceAll for a non-empty pattern: leftmost, non-overlapping. */
  function ReplaceAll(s: string, p: string, v: string): string
    requires p != ""
  {
    if s == "" then ""
    else if p <= s then v + ReplaceAll(s[|p|..], p, v)
    else [s[0]] + ReplaceAll(s[1..], p, v)
  }

  ghost predicate Occurs(p: string, s: string) {
    exists i :: 0 <= i <= |s| && p <= s[i..]
  }

  /** No occurrence of p can start inside a, whatever text follows a. */
  ghost predicate Clear(a: string, p: string) {
    forall i :: 0 <= i < |a| ==> !(p <= a[i..]) && !(a[i..] <= p)
  }

  lemma {:induction false} ReplaceSkips(a: string, s: string, p: string, v: string)
    requires p != "" && Clear(a, p)
    ensures ReplaceAll(a + s, p, v) == a + ReplaceAll(s, p, v)
  {
    if a == "" {
      assert a + s == s;
    } else {
      assert a[0..] == a;
      assert !(p <= a + s);
      assert (a + s)[1..] == a[1..] + s;
      assert forall i :: 0 <= i < |a[1..]| ==> a[1..][i..] == a[i + 1..];
      ReplaceSkips(a[1..], s, p, v);
    }
  }

  lemma {:induction false} ReplaceHits(s: string, p: string, v: string)
    requires p != ""
    ensures ReplaceAll(p + s, p, v) == v + ReplaceAll(s, p, v)
  {
    assert (p + s)[..|p|] == p && (p + s)[|p|..] == s;
  }

  lemma {:induction false} ReplaceAbsent(s: string, p: string, v: string)
    requires p != "" && !Occurs(p, s)
    ensures ReplaceAll(s, p, v) == s
  {
    if s != "" {
      assert s[0..] == s;
      forall i | 0 <= i <= |s[1..]| ensures !(p <= s[1..][i..]) {
        assert s[1..][i..] == s[i + 1..];
      }
      ReplaceAbsent(s[1..], p, v);
    }
  }

  lemma {:induction false} ReplaceBySelf(s: string, p: string)
    requires p != ""
    ensures ReplaceAll(s, p, p) == s
  {
    if s == "" {
    } else if p <= s {
      ReplaceBySelf(s[|p|..], p);
    } else {
      ReplaceBySelf(s[1..], p);
    }
  }

  lemma {:induction false} ReplaceLength(s: string, p: string, v: string)
    requires p != ""
    ensures |v| <= |p| ==> |ReplaceAll(s, p, v)| <= |s|
    ensures |v| >= |p| ==> |ReplaceAll(s, p, v)| >= |s|
  {
    if s == "" {
    } else if p <= s {
      ReplaceLength(s[|p|..], p, v);
    } else {
      ReplaceLength(s[1..], p, v);
    }
  }

  /** Replacing a pattern that occurs by anything but itself changes the text. */
  lemma {:induction false} ReplaceChanges(s: string, p: string, v: string)
    requires p != "" && v != p && Occurs(p, s)
    ensures ReplaceAll(s, p, v) != s
  {
    if p <= s {
      assert s != "";
      var t := ReplaceAll(s[|p|..], p, v);
      ReplaceLength(s[|p|..], p, v);
      if |v| == |p| {
        assert (v + t)[..|p|] == v && s[..|p|] == p;
      } else {
        assert |v + t| != |s|;
      }
    } else {
      var i :| 0 <= i <= |s| && p <= s[i..];
      assert i != 0 by { assert s[0..] == s; }
      assert s[i..] == s[1..][i - 1..];
      ReplaceChanges(s[1..], p, v);
      assert ([s[0]] + ReplaceAll(s[1..], p, v))[1..] == ReplaceAll(s[1..], p, v);
    }
  }

  /** Replacement brings in no characters but the replacement's own. */
  lemma {:induction false} ReplaceKeepsFree(s: string, p: string, v: string, c: char)
    requires p != "" && c !in s && c !in v
    ensures c !in ReplaceAll(s, p, v)
  {
    if s == "" {
    } else if p <= s {
      ReplaceKeepsFree(s[|p|..], p, v, c);
    } else {
      ReplaceKeepsFree(s[1..], p, v, c);
    }
  }

  lemma {:induction false} FreeIsClear(a: string, p: string)
    requires p != "" && p[0] !in a
    ensures Clear(a, p)
  {
    forall i | 0 <= i < |a| ensures !(p <= a[i..]) && !(a[i..] <= p) {
      assert a[i..][0] == a[i] != p[0];
    }
  }

  // ---------------------------------------------------------------- decimals

  const DIGITS := "0123456789"

  /** Digits of n, most significant first; strconv.Itoa for n >= 0. */
  function Digits(n: nat): (s: string)
    ensures s != "" && (forall c :: c in s ==> c in DIGITS)
  {
    if n < 10 then [DIGITS[n]] else Digits(n / 10) + [DIGITS[n % 10]]
  }

  /** fmt's %d. */
  function Decimal(n: int): string {
    if n < 0 then "-" + Digits(-n) else Digits(n)
  }

  function DigitValue(c: char): nat {
    if '0' <= c <= '9' then c as int - '0' as int else 0
  }

  function NumberOf(s: string): nat {
    if s == "" then 0 else 10 * NumberOf(s[..|s| - 1]) + DigitValue(s[|s| - 1])
  }

  lemma DigitAt(d: nat)
    requires d < 10
    ensures DigitValue(DIGITS[d]) == d
  {
    assert DIGITS[0] == '0' && DIGITS[1] == '1' && DIGITS[2] == '2' && DIGITS[3] == '3' && DIGITS[4] == '4';
    assert DIGITS[5] == '5' && DIGITS[6] == '6' && DIGITS[7] == '7' && DIGITS[8] == '8' && DIGITS[9] == '9';
  }

  lemma {:induction false} NumberOfDigits(n: nat)
    ensures NumberOf(Digits(n)) == n
  {
    var s := Digits(n);
    DigitAt(n % 10);
    if n < 10 {
      assert s[..|s| - 1] == "";
    } else {
      NumberOfDigits(n / 10);
      assert s[..|s| - 1] == Digits(n / 10);
    }
  }

  lemma DigitsTimesTen(n: nat)
    requires n > 0
    ensures Digits(10 * n) == Digits(n) + "0"
  {
    assert (10 * n) / 10 == n && (10 * n) % 10 == 0;
    assert [DIGITS[0]] == "0";
  }

  /** Three zeros after the digits of n are the digits of 1000 * n. */
  lemma DigitsTimesThousand(n: nat)
    requires n > 0
    ensures Digits(n) + "000" == Digits(1000 * n)
  {
    hide Digits;
    DigitsTimesTen(n);
    DigitsTimesTen(10 * n);
    DigitsTimesTen(100 * n);
    assert Digits(n) + "0" + "0" + "0" == Digits(n) + "000";
  }

  // ---------------------------------------------------------------- splitting

  /** The part of s before the first sep, and whether there was one. */
  function Upto(s: string, sep: char): string {
    if s == "" || s[0] == sep then "" else [s[0]] + Upto(s[1..], sep)
  }

  /** strings.Split on one character. */
  function Split(s: string, sep: char): (parts: seq<string>)
    ensures |parts| >= 1
    decreases |s|
  {
    var w := Upto(s, sep);
    UptoIsPrefix(s, sep);
    if |w| == |s| then [s] else [w] + Split(s[|w| + 1..], sep)
  }

  lemma {:induction false} UptoIsPrefix(s: string, sep: char)
    ensures Upto(s, sep) <= s && sep !in Upto(s, sep)
    ensures |Upto(s, sep)| < |s| ==> s[|Upto(s, sep)|] == sep
  {
    if s != "" && s[0] != sep {
      UptoIsPrefix(s[1..], sep);
    }
  }

  lemma {:induction false} UptoFinds(a: string, sep: char, t: string)
    requires sep !in a
    ensures Upto(a + [sep] + t, sep) == a && Upto(a, sep) == a
  {
    if a == "" {
      assert (a + [sep] + t)[0] == sep;
    } else {
      assert (a + [sep] + t)[1..] == a[1..] + [sep] + t;
      UptoFinds(a[1..], sep, t);
    }
  }

  lemma {:induction false} SplitFinds(a: string, sep: char, t: string)
    requires sep !in a
    ensures Split(a + [sep] + t, sep) == [a] + Split(t, sep)
    ensures Split(a, sep) == [a]
  {
    UptoFinds(a, sep, t);
    assert (a + [sep] + t)[|a| + 1..] == t;
  }
}
