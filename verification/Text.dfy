/** Splitting, joining, trimming and decimal numerals, as the script language does them. */
module Text {

  predicate Free(s: string, c: char) {
    forall i | 0 <= i < |s| :: s[i] != c
  }

  /** The pieces of `s` between occurrences of `c`: always at least one. */
  function Split(s: string, c: char): (parts: seq<string>)
    ensures |parts| >= 1
    ensures forall i | 0 <= i < |parts| :: Free(parts[i], c)
  {
    if s == "" then [""]
    else
      var rest := Split(s[1..], c);
      if s[0] == c then [""] + rest
      else [[s[0]] + rest[0]] + rest[1..]
  }

  function Join(parts: seq<string>, c: char): string {
    if parts == [] then ""
    else if |parts| == 1 then parts[0]
    else parts[0] + [c] + Join(parts[1..], c)
  }

  lemma {:induction false} JoinSplit(s: string, c: char)
    ensures Join(Split(s, c), c) == s
  {
    if s != "" {
      JoinSplit(s[1..], c);
      var rest := Split(s[1..], c);
      if s[0] == c {
        assert ([""] + rest)[1..] == rest;
      } else {
        var parts := [[s[0]] + rest[0]] + rest[1..];
        assert parts[1..] == rest[1..];
        if |rest| == 1 {
          assert Join(parts, c) == [s[0]] + rest[0];
        } else {
          assert Join(parts, c) == [s[0]] + (rest[0] + [c] + Join(rest[1..], c));
        }
      }
      assert s == [s[0]] + s[1..];
    }
  }

  lemma {:induction false} SplitFree(s: string, c: char)
    requires Free(s, c)
    ensures Split(s, c) == [s]
  {
    if s != "" {
      SplitFree(s[1..], c);
      assert s[0] != c && s == [s[0]] + s[1..];
    }
  }

  lemma {:induction false} SplitFirst(s: string, c: char, t: string)
    requires Free(s, c)
    ensures Split(s + [c] + t, c) == [s] + Split(t, c)
  {
    var whole := s + [c] + t;
    if s == "" {
      assert whole[1..] == t;
    } else {
      assert whole[1..] == s[1..] + [c] + t;
      SplitFirst(s[1..], c, t);
      assert whole[0] == s[0] != c && s == [s[0]] + s[1..];
      var rest := [s[1..]] + Split(t, c);
      assert rest[1..] == Split(t, c);
    }
  }

  lemma {:induction false} SplitJoin(parts: seq<string>, c: char)
    requires parts != [] && forall i | 0 <= i < |parts| :: Free(parts[i], c)
    ensures Split(Join(parts, c), c) == parts
  {
    if |parts| == 1 {
      SplitFree(parts[0], c);
    } else {
      SplitJoin(parts[1..], c);
      SplitFirst(parts[0], c, Join(parts[1..], c));
    }
  }

  predicate Space(c: char) {
    c == ' ' || c == '\t' || c == '\r' || c == '\n'
  }

  function Trim(s: string): string {
    if s != "" && Space(s[0]) then Trim(s[1..])
    else if s != "" && Space(s[|s| - 1]) then Trim(s[..|s| - 1])
    else s
  }

  /** White space is cut off at both ends, and nothing else. */
  lemma {:induction false} TrimCuts(s: string) returns (v: string, u: string)
    ensures s == v + (Trim(s) + u)
    ensures forall i | 0 <= i < |v| :: v[i] == ' ' || v[i] == '\t' || v[i] == '\r' || v[i] == '\n'
    ensures forall i | 0 <= i < |u| :: u[i] == ' ' || u[i] == '\t' || u[i] == '\r' || u[i] == '\n'
    ensures Trim(s) != "" ==> var t := Trim(s);
              t[0] !in {' ', '\t', '\r', '\n'} && t[|t| - 1] !in {' ', '\t', '\r', '\n'}
    decreases |s|
  {
    if s != "" && Space(s[0]) {
      v, u := TrimCuts(s[1..]);
      v := [s[0]] + v;
      assert s == [s[0]] + s[1..];
    } else if s != "" && Space(s[|s| - 1]) {
      v, u := TrimCuts(s[..|s| - 1]);
      u := u + [s[|s| - 1]];
      assert s == s[..|s| - 1] + [s[|s| - 1]];
    } else {
      v, u := "", "";
    }
  }

  // ----- decimal numerals

  predicate IsDigit(c: char) {
    '0' <= c <= '9'
  }

  predicate AllDigits(s: string) {
    forall i | 0 <= i < |s| :: IsDigit(s[i])
  }

  function Dec(n: nat): (s: string)
    ensures s != "" && AllDigits(s)
  {
    (if n < 10 then "" else Dec(n / 10)) + ['0' + (n % 10) as char]
  }

  function Val(s: string): nat
    requires AllDigits(s)
  {
    if s == "" then 0 else 10 * Val(s[..|s| - 1]) + (s[|s| - 1] - '0') as nat
  }

  lemma {:induction false} ValDec(n: nat)
    ensures Val(Dec(n)) == n
  {
    var s := Dec(n);
    assert (s[|s| - 1] - '0') as nat == n % 10;
    if n >= 10 {
      ValDec(n / 10);
      assert s[..|s| - 1] == Dec(n / 10);
    }
  }

  /** Digits are read from the left, ten times as much for each one that follows. */
  lemma ValIs(s: string, c: char)
    requires AllDigits(s) && '0' <= c <= '9'
    ensures Val("") == 0 && Val(s + [c]) == 10 * Val(s) + (c as int - '0' as int)
  {
    assert (s + [c])[..|s|] == s;
  }

  // ----- bytes and hexadecimal digits

  /** A text of bytes, written as characters below 256. */
  predicate ByteString(s: string) {
    forall i | 0 <= i < |s| :: s[i] as int < 256
  }

  predicate IsHex(c: char) {
    IsDigit(c) || 'a' <= c <= 'f' || 'A' <= c <= 'F'
  }

  function HexDigit(c: char): (d: nat)
    requires IsHex(c)
    ensures d < 16
  {
    if IsDigit(c) then (c - '0') as nat
    else if 'a' <= c <= 'f' then (c - 'a') as nat + 10
    else (c - 'A') as nat + 10
  }

  function HexChar(n: nat): (c: char)
    requires n < 16
    ensures IsHex(c) && HexDigit(c) == n
  {
    if n < 10 then '0' + n as char else 'a' + (n - 10) as char
  }

  /** Letters in either case follow the decimal digits. */
  lemma HexDigits(n: nat)
    requires n < 10
    ensures HexDigit("0123456789"[n]) == n
    ensures n < 6 ==> HexDigit("abcdef"[n]) == 10 + n == HexDigit("ABCDEF"[n])
  {
  }
}
