/** uwsd's template wrapper: percent-encoding and form bodies. */
module UrlCoding {
  import opened Text

  /** What the decoder makes of "%" and two characters that are not hexadecimal digits. */
  type Junk = (char, char) -> string

  /** Unreserved characters (section 2.3 of RFC 3986). */
  predicate Unreserved(c: char) {
    IsDigit(c) || 'A' <= c <= 'Z' || 'a' <= c <= 'z' || c == '-' || c == '_' || c == '.' || c == '~'
  }

  function EncodeByte(c: char): string
    requires c as int < 256
  {
    if Unreserved(c) then [c] else ['%', HexChar(c as int / 16), HexChar(c as int % 16)]
  }

  function Encode(s: string): string
    requires ByteString(s)
  {
    if s == "" then "" else Encode(s[..|s| - 1]) + EncodeByte(s[|s| - 1])
  }

  function DecodeTwo(junk: Junk, a: char, b: char): string {
    if IsHex(a) && IsHex(b) then [(16 * HexDigit(a) + HexDigit(b)) as char] else junk(a, b)
  }

  /** "+" is a blank, "%" with two characters behind it an escape, "%" near the end itself. */
  function Decode(junk: Junk, s: string): string {
    if s == "" then ""
    else if s[0] == '+' then " " + Decode(junk, s[1..])
    else if s[0] == '%' && |s| > 2 then DecodeTwo(junk, s[1], s[2]) + Decode(junk, s[3..])
    else [s[0]] + Decode(junk, s[1..])
  }

  method UrlEncode(s: string) returns (out: string)
    requires ByteString(s)
    ensures out == Encode(s)
  {
    out := "";
    for i := 0 to |s|
      invariant out == Encode(s[..i])
    {
      assert s[..i + 1][..i] == s[..i];
      if Unreserved(s[i]) {
        out := out + [s[i]];
      } else {
        out := out + ['%', HexChar(s[i] as int / 16), HexChar(s[i] as int % 16)];
      }
    }
    assert s[..|s|] == s;
  }

  method UrlDecode(junk: Junk, s: string) returns (out: string)
    ensures out == Decode(junk, s)
  {
    hide DecodeTwo;
    out := "";
    var i := 0;
    while i < |s|
      invariant i <= |s| && Decode(junk, s) == out + Decode(junk, s[i..])
    {
      var c := s[i];
      if c == '+' {
        Assoc(out, " ", Decode(junk, s[i..][1..]));
        assert s[i..][1..] == s[i + 1..];
        out := out + " ";
      } else if c == '%' && i + 2 < |s| {
        Assoc(out, DecodeTwo(junk, s[i + 1], s[i + 2]), Decode(junk, s[i..][3..]));
        assert s[i..][3..] == s[i + 3..];
        out := out + DecodeTwo(junk, s[i + 1], s[i + 2]);
        i := i + 2;
      } else {
        Assoc(out, [c], Decode(junk, s[i..][1..]));
        assert s[i..][1..] == s[i + 1..];
        out := out + [c];
      }
      i := i + 1;
    }
    assert s[i..] == "" && out + "" == out;
  }

  lemma Assoc(a: string, b: string, c: string)
    ensures a + (b + c) == a + b + c
  {
  }

  // ----- the round trip

  lemma EncodedByteIsRead(junk: Junk, c: char, rest: string)
    requires c as int < 256
    ensures Decode(junk, EncodeByte(c) + rest) == [c] + Decode(junk, rest)
  {
    var t := EncodeByte(c) + rest;
    if Unreserved(c) {
      assert t[1..] == rest;
    } else {
      assert t[3..] == rest;
      assert (16 * (c as int / 16) + c as int % 16) as char == c;
    }
  }

  lemma {:induction false} EncodedIsRead(junk: Junk, s: string, rest: string)
    requires ByteString(s)
    ensures Decode(junk, Encode(s) + rest) == s + Decode(junk, rest)
  {
    if s == "" {
      assert Encode(s) + rest == rest;
    } else {
      hide Decode;
      hide EncodeByte;
      var n := |s| - 1;
      Assoc(Encode(s[..n]), EncodeByte(s[n]), rest);
      EncodedIsRead(junk, s[..n], EncodeByte(s[n]) + rest);
      EncodedByteIsRead(junk, s[n], rest);
      Assoc(s[..n], [s[n]], Decode(junk, rest));
      assert s[..n] + [s[n]] == s;
    }
  }

  /** Every byte string comes back from its encoding. */
  lemma EncodeRoundTrip(junk: Junk, s: string)
    requires ByteString(s)
    ensures Decode(junk, Encode(s)) == s
  {
    EncodedIsRead(junk, s, "");
    assert Encode(s) + "" == Encode(s) && s + "" == s && Decode(junk, "") == "";
  }

  /** An encoding holds unreserved characters and escapes only (section 2.1 of RFC 3986). */
  lemma {:induction false} EncodedIsFree(s: string, c: char)
    requires ByteString(s) && !Unreserved(c) && c != '%'
    ensures Free(Encode(s), c)
  {
    if s != "" {
      EncodedIsFree(s[..|s| - 1], c);
    }
  }

  /** Letters, digits and four signs stay as they are; an encoding holds nothing else, but
      for the sign that starts an escape. */
  predicate Kept(c: char) {
    '0' <= c <= '9' || 'A' <= c <= 'Z' || 'a' <= c <= 'z' || c in {'-', '_', '.', '~'}
  }

  lemma ByteChars(c: char)
    requires c as int < 256
    ensures forall i | 0 <= i < |EncodeByte(c)| :: Kept(EncodeByte(c)[i]) || EncodeByte(c)[i] == '%'
    ensures Kept(c) ==> EncodeByte(c) == [c]
  {
  }

  lemma {:induction false} EncodedChars(s: string)
    requires ByteString(s)
    ensures forall i | 0 <= i < |Encode(s)| :: Kept(Encode(s)[i]) || Encode(s)[i] == '%'
    ensures (forall i | 0 <= i < |s| :: Kept(s[i])) ==> Encode(s) == s
  {
    hide Kept;
    hide EncodeByte;
    if s != "" {
      var n := |s| - 1;
      EncodedChars(s[..n]);
      ByteChars(s[n]);
      assert s == s[..n] + [s[n]];
    }
  }

  /** "+" is read as a blank, which is how forms write one. */
  lemma PlusIsBlank(junk: Junk, a: string, b: string)
    requires ByteString(a) && ByteString(b)
    ensures Decode(junk, Encode(a) + "+" + Encode(b)) == a + " " + b
  {
    var rest := "+" + Encode(b);
    Assoc(Encode(a), "+", Encode(b));
    EncodedIsRead(junk, a, rest);
    assert rest[1..] == Encode(b);
    EncodeRoundTrip(junk, b);
    Assoc(a, " ", b);
  }

  /** Either case of a hexadecimal digit will do in an escape. */
  lemma EscapeIsRead(junk: Junk, a: char, b: char, rest: string)
    requires IsHex(a) && IsHex(b)
    ensures Decode(junk, ['%', a, b] + rest) == [(16 * HexDigit(a) + HexDigit(b)) as char] + Decode(junk, rest)
  {
    assert (['%', a, b] + rest)[3..] == rest;
  }

  /** What is no escape and no "+" stays. */
  lemma {:induction false} PlainIsKept(junk: Junk, s: string, rest: string)
    requires Free(s, '+') && Free(s, '%')
    ensures Decode(junk, s + rest) == s + Decode(junk, rest)
  {
    if s == "" {
      assert s + rest == rest;
    } else {
      assert (s + rest)[1..] == s[1..] + rest;
      PlainIsKept(junk, s[1..], rest);
      assert [s[0]] + s[1..] == s;
    }
  }

  /** So does a "%" with less than two characters behind it. */
  lemma PercentIsKept(junk: Junk, s: string)
    requires Free(s, '+') && Free(s, '%') && |s| < 2
    ensures Decode(junk, "%" + s) == "%" + s
  {
    assert ("%" + s)[1..] == s && s + "" == s;
    PlainIsKept(junk, s, "");
    EmptyIsRead(junk);
  }

  // ----- forms

  type Form = map<string, seq<string>>

  datatype Field = Field(name: string, value: string)

  function Get(form: Form, k: string): seq<string> {
    if k in form then form[k] else []
  }

  function AddField(form: Form, f: Field): Form {
    form[f.name := Get(form, f.name) + [f.value]]
  }

  function Collect(fields: seq<Field>): Form {
    if fields == [] then map[]
    else AddField(Collect(fields[..|fields| - 1]), fields[|fields| - 1])
  }

  function Values(fields: seq<Field>, k: string): seq<string> {
    if fields == [] then []
    else
      var f := fields[|fields| - 1];
      Values(fields[..|fields| - 1], k) + if f.name == k then [f.value] else []
  }

  /** All values of a name, in order; no name without a value. */
  lemma {:induction false} CollectedValues(fields: seq<Field>, k: string)
    ensures Get(Collect(fields), k) == Values(fields, k)
    ensures k in Collect(fields) <==> Values(fields, k) != []
  {
    if fields != [] {
      CollectedValues(fields[..|fields| - 1], k);
      CollectedValues(fields[..|fields| - 1], fields[|fields| - 1].name);
    }
  }

  function IndexOf(s: string, c: char): (i: nat)
    ensures i <= |s| && (i < |s| ==> s[i] == c)
  {
    if s == "" || s[0] == c then 0 else IndexOf(s[1..], c) + 1
  }

  function Parse(junk: Junk, pair: string): Field {
    var eq := IndexOf(pair, '=');
    if eq < |pair| then Field(Decode(junk, pair[..eq]), Decode(junk, pair[eq + 1..]))
    else Field(Decode(junk, pair), "")
  }

  function ParseAll(junk: Junk, pairs: seq<string>): seq<Field> {
    if pairs == [] then [] else ParseAll(junk, pairs[..|pairs| - 1]) + [Parse(junk, pairs[|pairs| - 1])]
  }

  method ParsePair(junk: Junk, pair: string) returns (f: Field)
    ensures f == Parse(junk, pair)
  {
    hide Decode;
    var eq := IndexOf(pair, '=');
    var k := if eq < |pair| then pair[..eq] else pair;
    var v := if eq < |pair| then pair[eq + 1..] else "";
    k := UrlDecode(junk, k);
    assert Decode(junk, "") == "" by { EmptyIsRead(junk); }
    v := UrlDecode(junk, v);
    return Field(k, v);
  }

  lemma EmptyIsRead(junk: Junk)
    ensures Decode(junk, "") == ""
  {
  }

  method ParseForm(junk: Junk, raw: string) returns (form: Form)
    ensures form == Collect(ParseAll(junk, Split(raw, '&')))
  {
    hide Split;
    form := map[];
    var pairs := Split(raw, '&');
    for i := 0 to |pairs|
      invariant form == Collect(ParseAll(junk, pairs[..i]))
    {
      var f := ParsePair(junk, pairs[i]);
      PairJoins(junk, pairs, i);
      hide Parse;
      hide ParseAll;
      hide Collect;
      var vals := if f.name in form then form[f.name] else [];
      form := form[f.name := vals + [f.value]];
    }
    assert pairs[..|pairs|] == pairs;
  }

  lemma PairJoins(junk: Junk, pairs: seq<string>, i: nat)
    requires i < |pairs|
    ensures Collect(ParseAll(junk, pairs[..i + 1]))
         == AddField(Collect(ParseAll(junk, pairs[..i])), Parse(junk, pairs[i]))
  {
    hide Parse;
    hide AddField;
    assert pairs[..i + 1][..i] == pairs[..i];
    var before := ParseAll(junk, pairs[..i]);
    assert (before + [Parse(junk, pairs[i])])[..|before|] == before;
  }

  /** A pair is cut at its first "=". */
  lemma PairIs(junk: Junk, name: string, value: string)
    requires Free(name, '=')
    ensures Parse(junk, name + ("=" + value)) == Field(Decode(junk, name), Decode(junk, value))
    ensures Parse(junk, name) == Field(Decode(junk, name), "")
  {
    hide Decode;
    IndexInFront(name, '=', value);
    var pair := name + ("=" + value);
    assert pair[..|name|] == name && pair[|name| + 1..] == value;
  }

  function Occurrences(fields: seq<Field>, k: string): nat {
    if fields == [] then 0
    else Occurrences(fields[..|fields| - 1], k) + if fields[|fields| - 1].name == k then 1 else 0
  }

  /** A value stands behind the values of the fields before it that have the same name. */
  lemma {:induction false} ValueAt(fields: seq<Field>, i: nat, k: string)
    requires i < |fields|
    ensures |Get(Collect(fields), k)| == Occurrences(fields, k)
    ensures fields[i].name == k ==>
              var v, n := Get(Collect(fields), k), Occurrences(fields[..i], k);
              n < |v| && v[n] == fields[i].value
  {
    var last := |fields| - 1;
    if i < last {
      ValueAt(fields[..last], i, k);
      assert fields[..last][..i] == fields[..i];
    } else if last > 0 {
      ValueAt(fields[..last], 0, k);
    }
  }

  function EncodeField(f: Field): string
    requires ByteString(f.name) && ByteString(f.value)
  {
    Encode(f.name) + ("=" + Encode(f.value))
  }

  predicate AllBytes(fields: seq<Field>) {
    forall i | 0 <= i < |fields| :: ByteString(fields[i].name) && ByteString(fields[i].value)
  }

  function EncodeAll(fields: seq<Field>): (parts: seq<string>)
    requires AllBytes(fields)
    ensures |parts| == |fields| && forall i | 0 <= i < |fields| :: parts[i] == EncodeField(fields[i])
  {
    if fields == [] then [] else EncodeAll(fields[..|fields| - 1]) + [EncodeField(fields[|fields| - 1])]
  }

  lemma {:induction false} IndexInFront(a: string, c: char, b: string)
    requires Free(a, c)
    ensures IndexOf(a + ([c] + b), c) == |a|
  {
    if a != "" {
      assert (a + ([c] + b))[1..] == a[1..] + ([c] + b);
      IndexInFront(a[1..], c, b);
    }
  }

  lemma FieldIsRead(junk: Junk, f: Field)
    requires ByteString(f.name) && ByteString(f.value)
    ensures Parse(junk, EncodeField(f)) == f && Free(EncodeField(f), '&')
  {
    var a, b := Encode(f.name), Encode(f.value);
    EncodedIsFree(f.name, '=');
    EncodedIsFree(f.name, '&');
    EncodedIsFree(f.value, '&');
    IndexInFront(a, '=', b);
    var pair := a + ("=" + b);
    assert pair[..|a|] == a && pair[|a| + 1..] == b;
    EncodeRoundTrip(junk, f.name);
    EncodeRoundTrip(junk, f.value);
  }

  lemma {:induction false} FieldsAreRead(junk: Junk, fields: seq<Field>)
    requires AllBytes(fields)
    ensures ParseAll(junk, EncodeAll(fields)) == fields
  {
    hide Parse;
    hide EncodeField;
    if fields != [] {
      var n := |fields| - 1;
      assert EncodeAll(fields)[..n] == EncodeAll(fields[..n]);
      FieldsAreRead(junk, fields[..n]);
      FieldIsRead(junk, fields[n]);
      assert fields[..n] + [fields[n]] == fields;
    }
  }

  /** A form body made of encoded fields gives back all their values, under their names and
      in order. */
  lemma FormRoundTrip(junk: Junk, fields: seq<Field>)
    requires fields != [] && AllBytes(fields)
    ensures Collect(ParseAll(junk, Split(Join(EncodeAll(fields), '&'), '&'))) == Collect(fields)
  {
    hide EncodeField;
    var parts := EncodeAll(fields);
    forall i | 0 <= i < |parts| ensures Free(parts[i], '&') {
      FieldIsRead(junk, fields[i]);
    }
    SplitJoin(parts, '&');
    FieldsAreRead(junk, fields);
  }
}
