/**
 * The JavaScript string operations the views rely on, with a string taken as a sequence of
 * Unicode scalar values (`char`) where JavaScript sees UTF-16 code units; the two agree on
 * text inside the Basic Multilingual Plane:
 * ASCII case mapping (`toLowerCase`, `toUpperCase`), `includes`, `split` and `join`,
 * `replace` with a one-character pattern, and decimal number formatting (`String(n)`,
 * `padStart`) and parsing.
 */
module Text {

  /** `toLowerCase` on one character, for the ASCII letters. */
  function LowerChar(c: char): char
  {
    if 'A' <= c <= 'Z' then (c as int + 32) as char else c
  }

  /** `toUpperCase` on one character, for the ASCII letters. */
  function UpperChar(c: char): char
  {
    if 'a' <= c <= 'z' then (c as int - 32) as char else c
  }

  function Lower(s: string): string
  {
    seq(|s|, i requires 0 <= i < |s| => LowerChar(s[i]))
  }

  function Upper(s: string): string
  {
    seq(|s|, i requires 0 <= i < |s| => UpperChar(s[i]))
  }

  /** Lower-casing forgets how a string was cased: upper-cased first or not, the result is the same. */
  lemma LowerForgetsCase(s: string)
    ensures Lower(Upper(s)) == Lower(s)
    ensures Lower(Lower(s)) == Lower(s)
  {
    forall i | 0 <= i < |s| ensures LowerChar(UpperChar(s[i])) == LowerChar(s[i]) {
    }
  }

  /** `t` occurs in `s` at position `i`. */
  predicate OccursAt(s: string, t: string, i: int)
  {
    0 <= i && i + |t| <= |s| && s[i..i + |t|] == t
  }

  /** `s.includes(t)`: `t` is a prefix of `s` or of one of its suffixes. */
  predicate Includes(s: string, t: string)
    decreases |s|
  {
    if |t| > |s| then false
    else if s[..|t|] == t then true
    else |s| > 0 && Includes(s[1..], t)
  }

  /** `includes` holds exactly when `t` occurs somewhere in `s`. */
  lemma {:induction false} IncludesIff(s: string, t: string)
    ensures Includes(s, t) <==> exists i :: OccursAt(s, t, i)
    decreases |s|
  {
    if |t| > |s| {
    } else if s[..|t|] == t {
      assert OccursAt(s, t, 0);
    } else {
      IncludesIff(s[1..], t);
      if Includes(s[1..], t) {
        var i :| OccursAt(s[1..], t, i);
        assert s[1..][i..i + |t|] == s[i + 1..i + 1 + |t|];
        assert OccursAt(s, t, i + 1);
      }
      if exists i :: OccursAt(s, t, i) {
        var i :| OccursAt(s, t, i);
        assert i != 0;
        assert s[1..][i - 1..i - 1 + |t|] == s[i..i + |t|];
        assert OccursAt(s[1..], t, i - 1);
      }
    }
  }

  /**
   * `field.toLowerCase().includes(query.toLowerCase())`, the test every search box
   * applies to each of its record's fields.
   */
  predicate ContainsIgnoreCase(field: string, query: string)
  {
    Includes(Lower(field), Lower(query))
  }

  /** The empty query is found in every field. */
  lemma EmptyQueryMatches(field: string)
    ensures ContainsIgnoreCase(field, "")
  {
    assert Lower("") == "";
    assert Lower(field)[..0] == "";
  }

  /** Search ignores the case of the query: an upper-cased query finds the same fields. */
  lemma QueryCaseIgnored(field: string, query: string)
    ensures ContainsIgnoreCase(field, Upper(query)) == ContainsIgnoreCase(field, query)
  {
    LowerForgetsCase(query);
  }

  /** Position of the first `c` in `s`. */
  function IndexOf(s: string, c: char): (k: nat)
    requires c in s
    ensures k < |s| && s[k] == c && c !in s[..k]
    decreases |s|
  {
    if s[0] == c then 0 else 1 + IndexOf(s[1..], c)
  }

  /** `s.split(sep)` for a one-character separator: the pieces between separators, empty ones included. */
  function Split(s: string, sep: char): (ws: seq<string>)
    ensures |ws| >= 1
    ensures forall i :: 0 <= i < |ws| ==> sep !in ws[i]
    decreases |s|
  {
    if sep !in s then [s]
    else
      var k := IndexOf(s, sep);
      [s[..k]] + Split(s[k + 1..], sep)
  }

  /** `ws.join(sep)`: the pieces with one separator between each two. */
  function Join(ws: seq<string>, sep: char): string
    decreases |ws|
  {
    if |ws| == 0 then ""
    else if |ws| == 1 then ws[0]
    else ws[0] + [sep] + Join(ws[1..], sep)
  }

  /** Joining the pieces of a split with the same separator gives back the string. */
  lemma {:induction false} JoinSplit(s: string, sep: char)
    ensures Join(Split(s, sep), sep) == s
    decreases |s|
  {
    if sep in s {
      var k := IndexOf(s, sep);
      var rest := Split(s[k + 1..], sep);
      JoinSplit(s[k + 1..], sep);
      assert Split(s, sep) == [s[..k]] + rest;
      assert ([s[..k]] + rest)[1..] == rest;
      assert Join(Split(s, sep), sep) == s[..k] + [sep] + Join(rest, sep);
      assert s == s[..k] + [sep] + s[k + 1..];
    }
  }

  lemma IndexOfAfter(a: string, sep: char, b: string)
    requires sep !in a
    ensures sep in a + [sep] + b && IndexOf(a + [sep] + b, sep) == |a|
  {
    var s := a + [sep] + b;
    assert s[|a|] == sep;
    assert s[..|a|] == a;
    var k := IndexOf(s, sep);
  }

  /** Splitting pieces that hold no separator, once joined, gives back the pieces. */
  lemma {:induction false} SplitJoin(ws: seq<string>, sep: char)
    requires |ws| >= 1
    requires forall i :: 0 <= i < |ws| ==> sep !in ws[i]
    ensures Split(Join(ws, sep), sep) == ws
    decreases |ws|
  {
    if |ws| > 1 {
      var tail := ws[1..];
      var rest := Join(tail, sep);
      var s := ws[0] + [sep] + rest;
      assert Join(ws, sep) == s;
      IndexOfAfter(ws[0], sep, rest);
      var k := IndexOf(s, sep);
      assert s[..k] == ws[0];
      assert s[k + 1..] == rest;
      assert Split(s, sep) == [ws[0]] + Split(rest, sep);
      assert forall i :: 0 <= i < |tail| ==> tail[i] == ws[i + 1];
      SplitJoin(tail, sep);
      assert ws == [ws[0]] + tail;
    }
  }

  /**
   * `s.replace(from, to)` with a one-character string pattern: only the first
   * occurrence of `from` is replaced.
   */
  function ReplaceFirst(s: string, from: char, to: char): (r: string)
    ensures |r| == |s|
    ensures from !in s ==> r == s
    decreases |s|
  {
    if |s| == 0 then []
    else if s[0] == from then [to] + s[1..]
    else [s[0]] + ReplaceFirst(s[1..], from, to)
  }

  /** `replace` when the first `from` is at `k`. */
  lemma {:induction false} ReplaceFirstAt(s: string, k: nat, from: char, to: char)
    requires k < |s| && s[k] == from
    requires forall i :: 0 <= i < k ==> s[i] != from
    ensures ReplaceFirst(s, from, to) == s[..k] + [to] + s[k + 1..]
    decreases k
  {
    if k > 0 {
      ReplaceFirstAt(s[1..], k - 1, from, to);
      assert [s[0]] + (s[1..][..k - 1] + [to] + s[1..][k..]) == s[..k] + [to] + s[k + 1..];
    }
  }

  /** Character by character: the first `from` becomes `to`, everything else is kept. */
  lemma ReplaceFirstSpec(s: string, from: char, to: char)
    ensures forall i :: 0 <= i < |s| ==>
              ReplaceFirst(s, from, to)[i] == if s[i] == from && from !in s[..i] then to else s[i]
  {
    if from in s {
      var k := IndexOf(s, from);
      assert forall i :: 0 <= i < k ==> s[i] != from by {
        forall i | 0 <= i < k ensures s[i] != from {
          assert s[..k][i] == s[i];
        }
      }
      ReplaceFirstAt(s, k, from, to);
      forall i | 0 <= i < |s|
        ensures ReplaceFirst(s, from, to)[i] == if s[i] == from && from !in s[..i] then to else s[i]
      {
        if i < k {
          assert from !in s[..i] by {
            forall j | 0 <= j < i ensures s[..i][j] != from {
              assert s[..i][j] == s[j];
            }
          }
        } else if i > k {
          assert from in s[..i] by { assert s[..i][k] == from; }
        }
      }
    }
  }

  /** `replace` when there is no `from` at all. */
  lemma ReplaceFirstAbsent(s: string, from: char, to: char)
    requires forall i :: 0 <= i < |s| ==> s[i] != from
    ensures ReplaceFirst(s, from, to) == s
  {
  }

  predicate IsDigit(c: char)
  {
    '0' <= c <= '9'
  }

  function DigitChar(d: int): char
    requires 0 <= d < 10
  {
    ('0' as int + d) as char
  }

  function DigitValue(c: char): int
  {
    c as int - '0' as int
  }

  /** `String(n)` for a non-negative integer: its decimal digits without leading zeros. */
  function NatToString(n: nat): (s: string)
    ensures |s| >= 1
    ensures forall i :: 0 <= i < |s| ==> IsDigit(s[i])
    decreases n
  {
    if n < 10 then [DigitChar(n)] else NatToString(n / 10) + [DigitChar(n % 10)]
  }

  /** `String(n)` for any integer. */
  function IntToString(n: int): string
  {
    if n < 0 then "-" + NatToString(-n) else NatToString(n)
  }

  /** The number a string of decimal digits denotes, most significant digit first. */
  function DigitsValue(s: string): int
    decreases |s|
  {
    if |s| == 0 then 0 else DigitsValue(s[..|s| - 1]) * 10 + DigitValue(s[|s| - 1])
  }

  /** Reading the digits that `String(n)` writes gives back `n`. */
  lemma {:induction false} NatToStringRoundTrip(n: nat)
    ensures DigitsValue(NatToString(n)) == n
    decreases n
  {
    if n >= 10 {
      NatToStringRoundTrip(n / 10);
      var s := NatToString(n);
      assert s[..|s| - 1] == NatToString(n / 10);
    }
  }

  /** `Number(s)` for the text of an integer: an optional `-`, then decimal digits. */
  function ParseInt(s: string): int
  {
    if |s| > 0 && s[0] == '-' then -DigitsValue(s[1..]) else DigitsValue(s)
  }

  /** Reading back the text `String(n)` writes gives `n`. */
  lemma IntToStringRoundTrip(n: int)
    ensures ParseInt(IntToString(n)) == n
  {
    if n < 0 {
      NatToStringRoundTrip(-n);
      assert IntToString(n)[1..] == NatToString(-n);
    } else {
      NatToStringRoundTrip(n);
      assert IsDigit(NatToString(n)[0]);
    }
  }

  /** Different integers are written differently. */
  lemma IntToStringInjective(a: int, b: int)
    ensures IntToString(a) == IntToString(b) ==> a == b
  {
    IntToStringRoundTrip(a);
    IntToStringRoundTrip(b);
  }

  /** `s.padStart(width, '0')`. */
  function PadStartZero(s: string, width: nat): (r: string)
    ensures |r| == if |s| >= width then |s| else width
    ensures r[|r| - |s|..] == s
    ensures forall i :: 0 <= i < |r| - |s| ==> r[i] == '0'
  {
    if |s| >= width then s else seq(width - |s|, _ => '0') + s
  }

  /** `String(n).padStart(2, '0')`. */
  function TwoDigits(n: int): string
  {
    PadStartZero(IntToString(n), 2)
  }

  /** Numbers from 0 to 99 are written as exactly their two decimal digits. */
  lemma TwoDigitsShape(n: int)
    requires 0 <= n < 100
    ensures TwoDigits(n) == [DigitChar(n / 10), DigitChar(n % 10)]
  {
    if n < 10 {
      OneDigitPadded(n);
    } else {
      TwoDigitsUnpadded(n);
    }
  }

  lemma OneDigitPadded(n: int)
    requires 0 <= n < 10
    ensures TwoDigits(n) == ['0', DigitChar(n)]
  {
    var d := [DigitChar(n)];
    assert IntToString(n) == d;
    assert seq(1, _ => '0') == ['0'];
  }

  lemma TwoDigitsUnpadded(n: int)
    requires 10 <= n < 100
    ensures TwoDigits(n) == [DigitChar(n / 10), DigitChar(n % 10)]
  {
    assert NatToString(n / 10) == [DigitChar(n / 10)];
    assert IntToString(n) == [DigitChar(n / 10), DigitChar(n % 10)];
  }

  /** Two-digit padding is injective on 0..99. */
  lemma TwoDigitsInjective(a: int, b: int)
    requires 0 <= a < 100 && 0 <= b < 100
    requires TwoDigits(a) == TwoDigits(b)
    ensures a == b
  {
    TwoDigitsShape(a);
    TwoDigitsShape(b);
    assert DigitChar(a / 10) == DigitChar(b / 10) && DigitChar(a % 10) == DigitChar(b % 10);
  }
}
