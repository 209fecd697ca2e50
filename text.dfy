/**
 * The .NET string operations the writer relies on, over `string` (= seq<char>):
 * `int.ToString()`, `ToLower()`, `Replace(...)` and the `D4` number format.
 * Only ASCII case mapping is modelled.
 */
module Text {
  import opened Wrappers
  import Seqs

  predicate IsDigit(c: char) { '0' <= c <= '9' }

  predicate AllDigits(s: string) { forall i :: 0 <= i < |s| ==> IsDigit(s[i]) }

  function DigitChar(d: nat): (c: char)
    requires d < 10
    ensures IsDigit(c) && c as int - '0' as int == d
  {
    ('0' as int + d) as char
  }

  /** Decimal rendering of a natural number, most significant digit first. */
  function NatToString(n: nat): (s: string)
    decreases n
  {
    if n < 10 then [DigitChar(n)] else NatToString(n / 10) + [DigitChar(n % 10)]
  }

  /**
   * `int.ToString()` under the current culture, taken to be one whose negative sign is `-`
   * (the invariant culture or en-US, say): an optional minus sign, then the digits.
   */
  function IntToString(i: int): string
  {
    if i < 0 then "-" + NatToString(-i) else NatToString(i)
  }

  /** The value of a non-empty string of decimal digits. */
  function ParseNat(s: string): nat
    requires |s| > 0 && AllDigits(s)
    decreases |s|
  {
    var last := (s[|s| - 1] as int - '0' as int) as nat;
    if |s| == 1 then last else ParseNat(s[..|s| - 1]) * 10 + last
  }

  /** The inverse of IntToString: reads an optional minus sign followed by digits. */
  function ParseInt(s: string): Option<int>
  {
    if |s| > 1 && s[0] == '-' && AllDigits(s[1..]) then Some(0 - (ParseNat(s[1..]) as int))
    else if |s| > 0 && AllDigits(s) then Some(ParseNat(s))
    else None
  }

  lemma {:induction false} NatToStringDigits(n: nat)
    ensures |NatToString(n)| > 0 && AllDigits(NatToString(n))
    ensures ParseNat(NatToString(n)) == n
    decreases n
  {
    if n >= 10 {
      NatToStringDigits(n / 10);
      var s := NatToString(n);
      assert s[..|s| - 1] == NatToString(n / 10);
    }
  }

  /** Rendering a number and reading it back gives the number again. */
  lemma IntToStringRoundTrip(i: int)
    ensures ParseInt(IntToString(i)) == Some(i)
  {
    var s := IntToString(i);
    if i < 0 {
      var n := NatToString(-i);
      NatToStringDigits(-i);
      assert s == "-" + n && |s| > 1 && s[0] == '-';
      assert s[1..] == n;
      assert ParseInt(s) == Some(0 - (ParseNat(n) as int));
    } else {
      NatToStringDigits(i);
      assert IsDigit(s[0]);
      assert ParseInt(s) == Some(ParseNat(s));
    }
  }

  /** Different numbers never render to the same text. */
  lemma IntToStringInjective(i: int, j: int)
    requires IntToString(i) == IntToString(j)
    ensures i == j
  {
    IntToStringRoundTrip(i);
    IntToStringRoundTrip(j);
  }

  /** The first character of a rendered number is a digit or the minus sign. */
  lemma IntToStringHead(i: int)
    ensures |IntToString(i)| > 0
    ensures IsDigit(IntToString(i)[0]) || IntToString(i)[0] == '-'
  {
    NatToStringDigits(if i < 0 then -i else i);
  }

  /** `n.ToString("D4")`: at least four digits, left-padded with zeros. */
  function ZeroPad4(n: nat): (s: string)
  {
    var digits := NatToString(n);
    if |digits| < 4 then seq(4 - |digits|, _ => '0') + digits else digits
  }

  /**
   * Lower-casing of one ASCII letter under the current culture, taken to case ASCII letters as
   * the invariant culture does (tr-TR does not: it lowers `I` to a dotless i); other
   * characters are kept.
   */
  function LowerChar(c: char): char
  {
    if 'A' <= c <= 'Z' then (c as int + 32) as char else c
  }

  /** `String.ToLower()` restricted to ASCII. */
  function ToLower(s: string): string
  {
    seq(|s|, i requires 0 <= i < |s| => LowerChar(s[i]))
  }

  /** `s.Replace(c.ToString(), "")`: every occurrence of `c` removed, the rest kept in order. */
  function RemoveChar(s: string, c: char): (r: string)
    ensures c !in r
    ensures forall d :: d != c ==> (d in r <==> d in s)
    ensures |r| <= |s|
    ensures c !in s ==> r == s
  {
    if s == [] then [] else (if s[0] == c then [] else [s[0]]) + RemoveChar(s[1..], c)
  }

  /** Removing a character from a single character drops it exactly when it is that character. */
  lemma RemoveCharOne(d: char, c: char)
    ensures RemoveChar([d], c) == if d == c then [] else [d]
  {
    assert [d][1..] == [];
  }

  /** Removal from a text that starts with `x`: `x` is dropped or kept, then the rest follows. */
  lemma RemoveCharCons(x: char, s: string, c: char)
    ensures RemoveChar([x] + s, c) == (if x == c then [] else [x]) + RemoveChar(s, c)
  {
    assert ([x] + s)[1..] == s;
  }

  /** Removal works piece by piece: together with RemoveCharOne this determines RemoveChar on every text. */
  lemma {:induction false} RemoveCharAppend(s1: string, s2: string, c: char)
    ensures RemoveChar(s1 + s2, c) == RemoveChar(s1, c) + RemoveChar(s2, c)
    decreases |s1|
  {
    if s1 == [] {
      assert s1 + s2 == s2;
    } else {
      var x, t := s1[0], s1[1..];
      var h := if x == c then [] else [x];
      assert RemoveChar(s1 + s2, c) == h + RemoveChar(t + s2, c) by {
        assert s1 + s2 == [x] + (t + s2);
        RemoveCharCons(x, t + s2, c);
      }
      assert RemoveChar(s1, c) == h + RemoveChar(t, c) by {
        assert s1 == [x] + t;
        RemoveCharCons(x, t, c);
      }
      RemoveCharAppend(t, s2, c);
      Seqs.Assoc(h, RemoveChar(t, c), RemoveChar(s2, c));
    }
  }

  /** Every character other than `c` is kept as often as it occurs; `c` not at all. */
  lemma {:induction false} RemoveCharCounts(s: string, c: char)
    ensures multiset(RemoveChar(s, c)) == multiset(s)[c := 0]
    decreases |s|
  {
    if s != [] {
      RemoveCharCounts(s[1..], c);
      assert s == [s[0]] + s[1..];
      assert multiset(s) == multiset([s[0]]) + multiset(s[1..]);
    }
  }

  /**
   * `s.Replace(pat, rep)`: scanning left to right, every non-overlapping occurrence of the
   * non-empty `pat` is replaced by `rep`.
   */
  function ReplaceAll(s: string, pat: string, rep: string): string
    requires |pat| > 0
    decreases |s|
  {
    if |s| < |pat| then s
    else if s[..|pat|] == pat then rep + ReplaceAll(s[|pat|..], pat, rep)
    else [s[0]] + ReplaceAll(s[1..], pat, rep)
  }

  /** The occurrence at the head is replaced and scanning resumes right after it. */
  lemma ReplaceAllHead(pat: string, rep: string, s: string)
    requires |pat| > 0
    ensures ReplaceAll(pat + s, pat, rep) == rep + ReplaceAll(s, pat, rep)
  {
    assert (pat + s)[..|pat|] == pat;
    assert (pat + s)[|pat|..] == s;
  }

  /** A leading character that cannot start `pat` is copied and scanning moves on. */
  lemma ReplaceAllSkip(c: char, s: string, pat: string, rep: string)
    requires |pat| > 0 && c != pat[0]
    ensures ReplaceAll([c] + s, pat, rep) == [c] + ReplaceAll(s, pat, rep)
  {
    var t := [c] + s;
    assert t[1..] == s;
    if |t| >= |pat| {
      assert t[..|pat|][0] == c;
    }
  }
}
