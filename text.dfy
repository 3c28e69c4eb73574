/** Strings as the database compares them: ASCII case folding, the ILIKE
    pattern matcher, the lexicographic order behind ORDER BY, and the small
    formatting helpers the WHERE builders use. */
module Text {
  import opened Seqs

  /** ASCII lower-casing, standing in for the collation's case folding. */
  function Lower(c: char): char
  {
    if 'A' <= c <= 'Z' then (c as int + 32) as char else c
  }

  /** `s` begins with `prefix`, ignoring case. */
  predicate StartsWithIgnoringCase(s: string, prefix: string)
  {
    |prefix| <= |s| && forall i :: 0 <= i < |prefix| ==> Lower(s[i]) == Lower(prefix[i])
  }

  /** `part` occurs somewhere in `s`, ignoring case: a "partial match". */
  predicate ContainsIgnoringCase(s: string, part: string)
  {
    exists k :: 0 <= k <= |s| && StartsWithIgnoringCase(s[k..], part)
  }

  /** A character that LIKE does not treat specially. */
  predicate IsLiteral(c: char)
  {
    c != '%' && c != '_' && c != '\\'
  }

  predicate Literal(s: string)
  {
    forall i :: 0 <= i < |s| ==> IsLiteral(s[i])
  }

  /** `s ILIKE pattern`: `%` matches any run of characters, `_` any one
      character, a backslash makes the next character literal, and every
      other character matches itself ignoring case. */
  predicate ILike(s: string, pattern: string)
    decreases |pattern|, |s|
  {
    if pattern == [] then s == []
    else if pattern[0] == '%' then ILike(s, pattern[1..]) || (s != [] && ILike(s[1..], pattern))
    else if s == [] then false
    else if pattern[0] == '_' then ILike(s[1..], pattern[1..])
    else if pattern[0] == '\\' then
      |pattern| >= 2 && Lower(pattern[1]) == Lower(s[0]) && ILike(s[1..], pattern[2..])
    else Lower(pattern[0]) == Lower(s[0]) && ILike(s[1..], pattern[1..])
  }

  /** The pattern `%` matches every string. */
  lemma {:induction false} PercentMatchesAll(s: string)
    ensures ILike(s, "%")
  {
    if s != [] {
      PercentMatchesAll(s[1..]);
    }
  }

  /** For literal text, `part%` matches exactly the strings that start with `part`. */
  lemma {:induction false} PrefixPattern(s: string, part: string)
    requires Literal(part)
    ensures ILike(s, part + "%") <==> StartsWithIgnoringCase(s, part)
  {
    if part == [] {
      assert part + "%" == "%";
      PercentMatchesAll(s);
    } else if s != [] {
      assert (part + "%")[1..] == part[1..] + "%";
      PrefixPattern(s[1..], part[1..]);
      assert IsLiteral(part[0]);
      if StartsWithIgnoringCase(s, part) {
        assert StartsWithIgnoringCase(s[1..], part[1..]) by {
          forall i | 0 <= i < |part[1..]| ensures Lower(s[1..][i]) == Lower(part[1..][i]) {
            assert Lower(s[i + 1]) == Lower(part[i + 1]);
          }
        }
      }
      if Lower(part[0]) == Lower(s[0]) && StartsWithIgnoringCase(s[1..], part[1..]) {
        forall i | 0 <= i < |part| ensures Lower(s[i]) == Lower(part[i]) {
          if i > 0 {
            assert Lower(s[1..][i - 1]) == Lower(part[1..][i - 1]);
          }
        }
      }
    }
  }

  /** A leading `%` lets the rest of the pattern match any suffix. */
  lemma {:induction false} LeadingPercent(s: string, rest: string)
    ensures ILike(s, "%" + rest) <==> exists k :: 0 <= k <= |s| && ILike(s[k..], rest)
  {
    var p := "%" + rest;
    assert p[1..] == rest;
    if s == [] {
      if ILike(s, p) {
        assert ILike(s[0..], rest);
      }
    } else {
      LeadingPercent(s[1..], rest);
      if ILike(s, p) {
        if !ILike(s, rest) {
          var k :| 0 <= k <= |s[1..]| && ILike(s[1..][k..], rest);
          assert s[1..][k..] == s[k + 1..];
        } else {
          assert s[0..] == s;
        }
      }
      if exists k :: 0 <= k <= |s| && ILike(s[k..], rest) {
        var k :| 0 <= k <= |s| && ILike(s[k..], rest);
        if k == 0 {
          assert s[0..] == s;
        } else {
          assert s[1..][k - 1..] == s[k..];
        }
      }
    }
  }

  /** For literal text, `%part%` is exactly a case-insensitive substring search. */
  lemma SubstringPattern(s: string, part: string)
    requires Literal(part)
    ensures ILike(s, "%" + part + "%") <==> ContainsIgnoringCase(s, part)
  {
    assert "%" + part + "%" == "%" + (part + "%");
    LeadingPercent(s, part + "%");
    forall k | 0 <= k <= |s|
      ensures ILike(s[k..], part + "%") <==> StartsWithIgnoringCase(s[k..], part)
    {
      PrefixPattern(s[k..], part);
    }
  }

  /** Lexicographic order by character code: the order ORDER BY uses here. */
  predicate Less(a: string, b: string)
  {
    if a == [] then b != []
    else b != [] && (a[0] < b[0] || (a[0] == b[0] && Less(a[1..], b[1..])))
  }

  lemma {:induction false} LessIrreflexive(a: string)
    ensures !Less(a, a)
  {
    if a != [] {
      LessIrreflexive(a[1..]);
    }
  }

  lemma {:induction false} LessTransitive(a: string, b: string, c: string)
    requires Less(a, b) && Less(b, c)
    ensures Less(a, c)
  {
    if a != [] && a[0] == b[0] && b[0] == c[0] {
      LessTransitive(a[1..], b[1..], c[1..]);
    }
  }

  lemma {:induction false} LessTotal(a: string, b: string)
    ensures a == b || Less(a, b) || Less(b, a)
  {
    if a != [] && b != [] && a[0] == b[0] {
      LessTotal(a[1..], b[1..]);
      if a[1..] == b[1..] {
        assert a == [a[0]] + a[1..] && b == [b[0]] + b[1..];
      }
    }
  }

  lemma LessIsOrder()
    ensures StrictTotalOrder(Less)
  {
    forall a: string ensures !Less(a, a) {
      LessIrreflexive(a);
    }
    forall a: string, b: string, c: string | Less(a, b) && Less(b, c) ensures Less(a, c) {
      LessTransitive(a, b, c);
    }
    forall a: string, b: string ensures a == b || Less(a, b) || Less(b, a) {
      LessTotal(a, b);
    }
  }

  /** The decimal numeral of `n`, as `$` placeholders print it. */
  function Digits(n: nat): (r: string)
    ensures |r| >= 1
    ensures forall i :: 0 <= i < |r| ==> '0' <= r[i] <= '9'
    ensures n < 10 ==> |r| == 1
    ensures n >= 10 ==> |r| >= 2
    ensures r[0] == '0' ==> n == 0
  {
    if n < 10 then [('0' as int + n) as char] else Digits(n / 10) + Digits(n % 10)
  }

  /** The number a string of decimal digits denotes. */
  function NumeralValue(s: string): nat
    requires forall i :: 0 <= i < |s| ==> '0' <= s[i] <= '9'
  {
    if s == [] then 0 else 10 * NumeralValue(s[..|s| - 1]) + (s[|s| - 1] as int - '0' as int)
  }

  /** `Digits(n)` is the decimal numeral of `n`: it reads back as `n`. */
  lemma {:induction false} DigitsValue(n: nat)
    ensures NumeralValue(Digits(n)) == n
  {
    if n >= 10 {
      DigitsValue(n / 10);
      var a, c := Digits(n / 10), Digits(n % 10);
      assert (a + c)[..|a + c| - 1] == a;
    }
  }

  /** Array.prototype.join: the parts with `sep` between neighbours. */
  function Join(parts: seq<string>, sep: string): string
  {
    if |parts| == 0 then ""
    else if |parts| == 1 then parts[0]
    else parts[0] + sep + Join(parts[1..], sep)
  }
}
