/**
 * String helpers with the Ruby semantics the reports rely on.
 * Case conversion is ASCII only (see README, "Left out").
 */
module Text {
  import opened Collections

  /** Characters matched by a regular-expression `\s`: space, \t, \n, \v, \f, \r. */
  predicate IsSpace(c: char) {
    c == ' ' || c == '\t' || c == '\n' || c == '\U{000B}' || c == '\U{000C}' || c == '\r'
  }

  /** Characters removed by `String#strip`: the `\s` set plus NUL. */
  predicate IsStripped(c: char) {
    IsSpace(c) || c == '\U{0000}'
  }

  predicate IsDigit(c: char) {
    '0' <= c <= '9'
  }

  predicate IsAsciiLetter(c: char) {
    ('a' <= c <= 'z') || ('A' <= c <= 'Z')
  }

  function LowerChar(c: char): (r: char)
    ensures 'A' <= c <= 'Z' ==> 'a' <= r <= 'z'
    ensures !('A' <= c <= 'Z') ==> r == c
  {
    if 'A' <= c <= 'Z' then (c as int + 32) as char else c
  }

  /** `String#downcase`, restricted to ASCII letters. */
  function Downcase(s: string): (r: string)
    ensures |r| == |s|
    ensures forall i :: 0 <= i < |s| ==> r[i] == LowerChar(s[i])
    ensures forall i :: 0 <= i < |r| ==> !('A' <= r[i] <= 'Z')
  {
    seq(|s|, i requires 0 <= i < |s| => LowerChar(s[i]))
  }

  /** `String#casecmp?`: equal after case folding. */
  predicate EqualsIgnoreCase(a: string, b: string) {
    Downcase(a) == Downcase(b)
  }

  predicate StartsWith(s: string, prefix: string) {
    |prefix| <= |s| && s[..|prefix|] == prefix
  }

  /** Substring test: `s.match?(literal)` for a literal without metacharacters. */
  predicate Contains(s: string, sub: string)
    decreases |s|
  {
    StartsWith(s, sub) || (|s| > 0 && Contains(s[1..], sub))
  }

  /** sub occurs in s starting at position k. */
  predicate OccursAt(s: string, sub: string, k: int) {
    0 <= k && k + |sub| <= |s| && s[k..k + |sub|] == sub
  }

  /** sub occurs in s exactly when some window of s equals it. */
  lemma {:induction false} ContainsWindow(s: string, sub: string)
    ensures Contains(s, sub) <==> exists k :: OccursAt(s, sub, k)
    decreases |s|
  {
    assert StartsWith(s, sub) <==> OccursAt(s, sub, 0);
    if |s| > 0 {
      ContainsWindow(s[1..], sub);
      if Contains(s[1..], sub) {
        var k :| OccursAt(s[1..], sub, k);
        assert s[k + 1..k + 1 + |sub|] == s[1..][k..k + |sub|];
        assert OccursAt(s, sub, k + 1);
      }
      if exists k :: OccursAt(s, sub, k) {
        var k :| OccursAt(s, sub, k);
        if k > 0 {
          assert s[1..][k - 1..k - 1 + |sub|] == s[k..k + |sub|];
          assert OccursAt(s[1..], sub, k - 1);
        }
      }
    } else {
      assert Contains(s, sub) <==> sub == [];
      assert (exists k :: OccursAt(s, sub, k)) <==> OccursAt(s, sub, 0);
    }
  }

  /** Case-insensitive substring test: `s.match?(/literal/i)`. */
  predicate ContainsIgnoreCase(s: string, sub: string) {
    Contains(Downcase(s), Downcase(sub))
  }

  function TrimStart(s: string): (r: string)
    ensures |r| <= |s| && r == s[|s| - |r|..]
    ensures |r| > 0 ==> !IsStripped(r[0])
    ensures forall i :: 0 <= i < |s| - |r| ==> IsStripped(s[i])
    decreases |s|
  {
    if |s| > 0 && IsStripped(s[0]) then TrimStart(s[1..]) else s
  }

  function TrimEnd(s: string): (r: string)
    ensures |r| <= |s| && r == s[..|r|]
    ensures |r| > 0 ==> !IsStripped(r[|r| - 1])
    ensures forall i :: |r| <= i < |s| ==> IsStripped(s[i])
    decreases |s|
  {
    if |s| > 0 && IsStripped(s[|s| - 1]) then TrimEnd(s[..|s| - 1]) else s
  }

  /** Leading `\s` characters dropped (no NUL, unlike strip). */
  function SkipSpaces(s: string): (r: string)
    ensures |r| <= |s| && r == s[|s| - |r|..]
    ensures |r| > 0 ==> !IsSpace(r[0])
    decreases |s|
  {
    if |s| > 0 && IsSpace(s[0]) then SkipSpaces(s[1..]) else s
  }

  /** `String#strip`: remove leading and trailing whitespace. */
  function Strip(s: string): string {
    TrimEnd(TrimStart(s))
  }

  /** Rails `blank?` on a possibly nil string: nil, empty or whitespace only. */
  predicate IsBlank(s: Option<string>) {
    s.None? || forall i :: 0 <= i < |s.value| ==> IsSpace(s.value[i])
  }

  /** `gsub(/\s+/, '')`: every whitespace character removed. */
  function RemoveSpaces(s: string): (r: string)
    ensures forall i :: 0 <= i < |r| ==> !IsSpace(r[i])
    ensures |r| <= |s|
    decreases |s|
  {
    if |s| == 0 then []
    else if IsSpace(s[0]) then RemoveSpaces(s[1..])
    else [s[0]] + RemoveSpaces(s[1..])
  }

  /**
   * Removing whitespace works piece by piece and keeps a non-space
   * character: together these say the result is exactly the non-space
   * characters of s, in order.
   */
  lemma {:induction false} RemoveSpacesAppend(a: string, b: string)
    ensures RemoveSpaces(a + b) == RemoveSpaces(a) + RemoveSpaces(b)
    ensures |a| == 1 ==> RemoveSpaces(a) == if IsSpace(a[0]) then [] else a
    decreases |a|
  {
    if |a| == 0 {
      assert a + b == b;
    } else {
      assert (a + b)[0] == a[0] && (a + b)[1..] == a[1..] + b;
      RemoveSpacesAppend(a[1..], b);
      if |a| == 1 {
        assert a[1..] == [];
      }
    }
  }

  /** A character survives the removal exactly when it occurs in s and is no whitespace. */
  lemma {:induction false} RemoveSpacesKeeps(s: string, c: char)
    ensures c in RemoveSpaces(s) <==> c in s && !IsSpace(c)
    decreases |s|
  {
    if |s| > 0 {
      RemoveSpacesKeeps(s[1..], c);
      assert c in s <==> c == s[0] || c in s[1..] by { assert s == [s[0]] + s[1..]; }
    }
  }

  /** `s.join(sep)`. */
  function Join(parts: seq<string>, sep: string): string
    decreases |parts|
  {
    if |parts| == 0 then ""
    else if |parts| == 1 then parts[0]
    else parts[0] + sep + Join(parts[1..], sep)
  }

  /** Appending one part to a join adds the separator and the part (nothing but the part on an empty join). */
  lemma {:induction false} JoinAppend(parts: seq<string>, x: string, sep: string)
    ensures Join(parts + [x], sep) == if |parts| == 0 then x else Join(parts, sep) + sep + x
    decreases |parts|
  {
    if |parts| == 1 {
      assert (parts + [x])[1..] == [x];
    } else if |parts| > 1 {
      assert (parts + [x])[1..] == parts[1..] + [x];
      JoinAppend(parts[1..], x, sep);
    } else {
      assert parts + [x] == [x];
    }
  }

  function DigitChar(d: nat): (c: char)
    requires d < 10
    ensures IsDigit(c)
  {
    ('0' as int + d) as char
  }

  function DigitValue(c: char): (d: nat)
    requires IsDigit(c)
    ensures d < 10
  {
    c as int - '0' as int
  }

  /** Decimal digits of n without leading zeros (`Integer#to_s` for n >= 0). */
  function NatToString(n: nat): (r: string)
    ensures |r| > 0
    ensures forall i :: 0 <= i < |r| ==> IsDigit(r[i])
    decreases n
  {
    if n < 10 then [DigitChar(n)] else NatToString(n / 10) + [DigitChar(n % 10)]
  }

  /** `Integer#to_s`. */
  function IntToString(n: int): (r: string)
    ensures |r| > 0
  {
    if n < 0 then "-" + NatToString(-n) else NatToString(n)
  }

  /** The value of a run of decimal digits. */
  function DigitsValue(s: string): nat
    requires forall i :: 0 <= i < |s| ==> IsDigit(s[i])
    decreases |s|
  {
    if |s| == 0 then 0 else DigitsValue(s[..|s| - 1]) * 10 + DigitValue(s[|s| - 1])
  }

  lemma {:induction false} NatToStringValue(n: nat)
    ensures DigitsValue(NatToString(n)) == n
    decreases n
  {
    if n >= 10 {
      var s := NatToString(n / 10) + [DigitChar(n % 10)];
      assert s[..|s| - 1] == NatToString(n / 10);
      NatToStringValue(n / 10);
    }
  }

  /**
   * Length of the digit run at the head of s that `String#to_i` reads:
   * digits, where a single `_` may separate two digits.
   */
  function DigitRunLength(s: string): (k: nat)
    ensures k <= |s|
    decreases |s|
  {
    if |s| == 0 || !IsDigit(s[0]) then 0
    else if |s| >= 3 && s[1] == '_' && IsDigit(s[2]) then 2 + DigitRunLength(s[2..])
    else 1 + DigitRunLength(s[1..])
  }

  /** A string of digits only is read whole by `to_i`. */
  lemma {:induction false} AllDigitsRunLength(s: string)
    requires forall i :: 0 <= i < |s| ==> IsDigit(s[i])
    ensures DigitRunLength(s) == |s|
    decreases |s|
  {
    if |s| > 0 {
      AllDigitsRunLength(s[1..]);
      if |s| >= 3 {
        assert s[1] != '_';
      }
    }
  }

  /** Value of a digit run, ignoring single underscores between digits. */
  function RunValue(s: string, acc: nat): nat
    decreases |s|
  {
    if |s| == 0 then acc
    else if IsDigit(s[0]) then RunValue(s[1..], acc * 10 + DigitValue(s[0]))
    else RunValue(s[1..], acc)
  }

  /**
   * `String#to_i`: skip leading whitespace, read an optional sign and the digit
   * run that follows; anything else, including no digits at all, reads as 0.
   */
  function ToI(s: string): int {
    var t := SkipSpaces(s);
    if |t| > 0 && (t[0] == '-' || t[0] == '+') then
      var v: int := RunValue(t[1..][..DigitRunLength(t[1..])], 0);
      if t[0] == '-' then -v else v
    else
      RunValue(t[..DigitRunLength(t)], 0)
  }

  /** `to_i` of a string that starts with neither whitespace nor a sign reads its leading digit run. */
  lemma ToIUnsigned(s: string)
    requires |s| > 0 && !IsSpace(s[0]) && s[0] != '-' && s[0] != '+'
    ensures ToI(s) == RunValue(s[..DigitRunLength(s)], 0)
  {
    assert SkipSpaces(s) == s;
  }

  /** `to_i` of a non-empty string of digits is the value of those digits read left to right. */
  lemma AllDigitsToI(s: string)
    requires |s| > 0 && forall i :: 0 <= i < |s| ==> IsDigit(s[i])
    ensures ToI(s) == RunValue(s, 0)
  {
    AllDigitsRunLength(s);
    assert IsDigit(s[0]);
    ToIUnsigned(s);
    assert s[..|s|] == s;
  }

  /** The fields of s between separator characters, empty ones included. */
  function Fields(s: string, sep: char): (r: seq<string>)
    ensures |r| > 0
    ensures forall i :: 0 <= i < |r| ==> sep !in r[i]
    decreases |s|
  {
    if |s| == 0 then [""]
    else
      var rest := Fields(s[1..], sep);
      if s[0] == sep then [""] + rest else [[s[0]] + rest[0]] + rest[1..]
  }

  function DropTrailingEmpty(parts: seq<string>): (r: seq<string>)
    ensures |r| <= |parts| && r == parts[..|r|]
    ensures |r| > 0 ==> r[|r| - 1] != ""
    decreases |parts|
  {
    if |parts| > 0 && parts[|parts| - 1] == "" then DropTrailingEmpty(parts[..|parts| - 1]) else parts
  }

  /** `String#split(sep)` with a one-character separator: trailing empty fields are dropped. */
  function Split(s: string, sep: char): (r: seq<string>)
    ensures forall i :: 0 <= i < |r| ==> sep !in r[i]
  {
    var r := DropTrailingEmpty(Fields(s, sep));
    assert forall i :: 0 <= i < |r| ==> r[i] == Fields(s, sep)[i];
    r
  }
  /** s without its trailing separator characters. */
  function TrimTrailing(s: string, sep: char): (r: string)
    ensures |r| <= |s| && r == s[..|r|]
    ensures |r| > 0 ==> r[|r| - 1] != sep
    ensures forall k :: |r| <= k < |s| ==> s[k] == sep
    decreases |s|
  {
    if |s| > 0 && s[|s| - 1] == sep then TrimTrailing(s[..|s| - 1], sep) else s
  }

  /** Joining the fields with the separator gives back the text. */
  lemma {:induction false} FieldsJoin(s: string, sep: char)
    ensures Join(Fields(s, sep), [sep]) == s
    decreases |s|
  {
    if |s| > 0 {
      var rest := Fields(s[1..], sep);
      FieldsJoin(s[1..], sep);
      if s[0] == sep {
        assert ([""] + rest)[1..] == rest;
      } else if |rest| > 1 {
        assert ([[s[0]] + rest[0]] + rest[1..])[1..] == rest[1..];
      }
      assert [s[0]] + s[1..] == s;
    }
  }

  /** Dropping the trailing empty parts trims the trailing separators off the join. */
  lemma {:induction false} DropTrailingEmptyJoin(parts: seq<string>, sep: char)
    requires forall i :: 0 <= i < |parts| ==> sep !in parts[i]
    ensures Join(DropTrailingEmpty(parts), [sep]) == TrimTrailing(Join(parts, [sep]), sep)
    decreases |parts|
  {
    if |parts| > 0 {
      var front := parts[..|parts| - 1];
      var x := parts[|parts| - 1];
      assert parts == front + [x];
      JoinAppend(front, x, [sep]);
      if x == "" {
        if |front| > 0 {
          var j := Join(front, [sep]);
          assert Join(parts, [sep]) == j + [sep];
          TrimOneSep(j, sep);
          DropTrailingEmptyJoin(front, sep);
        }
      } else {
        assert x[|x| - 1] in x;
        TrimNothing(Join(parts, [sep]), sep);
      }
    }
  }

  /** One trailing separator is trimmed like the rest. */
  lemma TrimOneSep(j: string, sep: char)
    ensures TrimTrailing(j + [sep], sep) == TrimTrailing(j, sep)
  {
    assert (j + [sep])[..|j|] == j;
  }

  /** A text that does not end in the separator is not trimmed. */
  lemma TrimNothing(s: string, sep: char)
    requires |s| == 0 || s[|s| - 1] != sep
    ensures TrimTrailing(s, sep) == s
  {
  }

  /**
   * `s.split(sep).join(sep)` gives back s without its trailing separators:
   * exactly the fields are kept, in order, and only trailing empty ones go.
   */
  lemma SplitJoin(s: string, sep: char)
    ensures Join(Split(s, sep), [sep]) == TrimTrailing(s, sep)
    ensures |s| > 0 && s[|s| - 1] != sep ==> Join(Split(s, sep), [sep]) == s
  {
    FieldsJoin(s, sep);
    DropTrailingEmptyJoin(Fields(s, sep), sep);
  }
}
