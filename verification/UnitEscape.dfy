/** systemd unit name escaping, as the patched backup client does it. */
module UnitEscape {
  import opened Text

  datatype Error = ShortInput | UnknownEscape | BadHexDigit

  datatype Result<+T> = Ok(value: T) | Err(error: Error)

  function ParseHexDigit(c: char): Result<nat> {
    if IsHex(c) then Ok(HexDigit(c)) else Err(BadHexDigit)
  }

  predicate IsName(c: char) {
    c == '_' || c == '.' || '0' <= c <= '9' || 'A' <= c <= 'Z' || 'a' <= c <= 'z'
  }

  function EscapeByte(c: char, first: bool): string
    requires c as int < 256
  {
    if c == '/' then "-"
    else if (first && c == '.') || !IsName(c) then ['\\', 'x', HexChar(c as int / 16), HexChar(c as int % 16)]
    else [c]
  }

  /** All bytes escaped, the last one last. */
  function Escape(s: string): string
    requires ByteString(s)
  {
    if s == "" then "" else Escape(s[..|s| - 1]) + EscapeByte(s[|s| - 1], |s| == 1)
  }

  function DropSlashes(s: string): string {
    if s != "" && s[0] == '/' then DropSlashes(s[1..]) else s
  }

  function EscapeUnit(s: string, isPath: bool): string
    requires ByteString(s)
  {
    if !isPath then Escape(s)
    else
      var rest := DropSlashes(s);
      DropKeepsBytes(s);
      if rest == "" then "-" else Escape(rest)
  }

  lemma {:induction false} DropKeepsBytes(s: string)
    requires ByteString(s)
    ensures ByteString(DropSlashes(s))
  {
    if s != "" && s[0] == '/' {
      DropKeepsBytes(s[1..]);
    }
  }

  function Unescape(t: string): Result<string>
    decreases |t|
  {
    if t == "" then Ok("")
    else if t[0] == '\\' then
      if |t| < 4 then Err(ShortInput)
      else if t[1] != 'x' then Err(UnknownEscape)
      else
        match ParseHexDigit(t[2])
        case Err(e) => Err(e)
        case Ok(h1) =>
          match ParseHexDigit(t[3])
          case Err(e) => Err(e)
          case Ok(h0) => Cons((h1 * 16 + h0) as char, Unescape(t[4..]))
    else Cons(if t[0] == '-' then '/' else t[0], Unescape(t[1..]))
  }

  function Cons(c: char, r: Result<string>): Result<string> {
    match r
    case Ok(s) => Ok([c] + s)
    case Err(e) => Err(e)
  }

  function Before(a: string, r: Result<string>): Result<string> {
    match r
    case Ok(s) => Ok(a + s)
    case Err(e) => Err(e)
  }

  // ----- the loops

  method EscapeUnitBytes(s: string, isPath: bool) returns (escaped: string)
    requires ByteString(s)
    ensures escaped == EscapeUnit(s, isPath)
  {
    var unit := s;
    if isPath {
      while unit != "" && unit[0] == '/'
        invariant ByteString(unit) && DropSlashes(unit) == DropSlashes(s)
        decreases |unit|
      {
        unit := unit[1..];
      }
      if unit == "" {
        return "-";
      }
    }
    escaped := "";
    for i := 0 to |unit|
      invariant escaped == Escape(unit[..i])
    {
      assert unit[..i + 1][..i] == unit[..i];
      var c := unit[i];
      if c == '/' {
        escaped := escaped + "-";
        continue;
      }
      if (i == 0 && c == '.') || !IsName(c) {
        escaped := escaped + ['\\', 'x', HexChar(c as int / 16), HexChar(c as int % 16)];
      } else {
        escaped := escaped + [c];
      }
    }
    assert unit[..|unit|] == unit;
  }

  method UnescapeUnitDo(text: string) returns (r: Result<string>)
    ensures r == Unescape(text)
  {
    var i := text;
    var data := "";
    BeforeNothing(Unescape(text));
    while i != ""
      invariant Unescape(text) == Before(data, Unescape(i))
      decreases |i|
    {
      var next := i[0];
      if next == '\\' {
        if |i| < 4 {
          return Err(ShortInput);
        }
        if i[1] != 'x' {
          return Err(UnknownEscape);
        }
        var h1 := ParseHexDigit(i[2]);
        if h1.Err? {
          return Err(h1.error);
        }
        var h0 := ParseHexDigit(i[3]);
        if h0.Err? {
          return Err(h0.error);
        }
        BeforeCons(data, (h1.value * 16 + h0.value) as char, Unescape(i[4..]));
        data := data + [(h1.value * 16 + h0.value) as char];
        i := i[4..];
      } else {
        BeforeCons(data, if next == '-' then '/' else next, Unescape(i[1..]));
        data := data + [if next == '-' then '/' else next];
        i := i[1..];
      }
    }
    assert data + "" == data;
    return Ok(data);
  }

  lemma BeforeNothing(r: Result<string>)
    ensures Before("", r) == r
  {
    assert r.Ok? ==> "" + r.value == r.value;
  }

  lemma BeforeCons(a: string, c: char, r: Result<string>)
    ensures Before(a, Cons(c, r)) == Before(a + [c], r)
  {
    if r.Ok? {
      assert a + ([c] + r.value) == a + [c] + r.value;
    }
  }

  // ----- the round trip

  lemma EscapedByteIsRead(c: char, first: bool, rest: string)
    requires c as int < 256
    ensures Unescape(EscapeByte(c, first) + rest) == Cons(c, Unescape(rest))
  {
    var t := EscapeByte(c, first) + rest;
    if |EscapeByte(c, first)| == 4 {
      assert t[4..] == rest;
      assert (c as int / 16 * 16 + c as int % 16) as char == c;
    } else {
      assert t[1..] == rest;
    }
  }

  lemma {:induction false} EscapedIsRead(s: string, rest: string)
    requires ByteString(s)
    ensures Unescape(Escape(s) + rest) == Before(s, Unescape(rest))
  {
    if s == "" {
      assert Escape(s) + rest == rest;
      assert Unescape(rest).Ok? ==> "" + Unescape(rest).value == Unescape(rest).value;
    } else {
      hide Unescape;
      hide EscapeByte;
      var n := |s| - 1;
      var last := EscapeByte(s[n], n == 0);
      assert Escape(s) + rest == Escape(s[..n]) + (last + rest);
      EscapedIsRead(s[..n], last + rest);
      EscapedByteIsRead(s[n], n == 0, rest);
      BeforeCons(s[..n], s[n], Unescape(rest));
      assert s[..n] + [s[n]] == s;
    }
  }

  /** Every byte string comes back from its unit name.  A path comes back without its
      leading slashes, or as the root directory. */
  lemma EscapeRoundTrip(s: string, isPath: bool)
    requires ByteString(s)
    ensures !isPath ==> Unescape(EscapeUnit(s, isPath)) == Ok(s)
    ensures isPath ==> Unescape(EscapeUnit(s, isPath)) == Ok(if DropSlashes(s) == "" then "/" else DropSlashes(s))
  {
    var kept := if isPath then DropSlashes(s) else s;
    DropKeepsBytes(s);
    EscapedIsRead(kept, "");
    assert Escape(kept) + "" == Escape(kept) && kept + "" == kept;
    if isPath && kept == "" {
      assert "-"[1..] == "";
      assert Unescape("-") == Cons('/', Ok(""));
      assert ['/'] + "" == "/";
    }
  }

  /** A unit name holds only characters that unit names may hold and never starts with a
      dot. */
  predicate IsUnitName(t: string) {
    (t != "" ==> t[0] != '.') && forall i | 0 <= i < |t| :: MayStay(t[i]) || t[i] == '-' || t[i] == '\\'
  }

  predicate MayStay(c: char) {
    '0' <= c <= '9' || 'A' <= c <= 'Z' || 'a' <= c <= 'z' || c in {'_', '.'}
  }

  /** Of those, all but a leading dot stay as they are. */
  lemma {:induction false} NamesStay(s: string)
    requires ByteString(s) && (s != "" ==> s[0] != '.') && forall i | 0 <= i < |s| :: MayStay(s[i])
    ensures Escape(s) == s
  {
    if s != "" {
      NamesStay(s[..|s| - 1]);
      assert s == s[..|s| - 1] + [s[|s| - 1]];
    }
  }

  lemma {:induction false} EscapedIsUnitName(s: string)
    requires ByteString(s)
    ensures IsUnitName(Escape(s)) && (Escape(s) == "" <==> s == "")
  {
    if s != "" {
      var n := |s| - 1;
      EscapedIsUnitName(s[..n]);
      hide Escape;
      EscapedByteIsName(s[n], n == 0);
      var a, b := Escape(s[..n]), EscapeByte(s[n], n == 0);
      hide EscapeByte;
      assert forall i | 0 <= i < |a + b| :: (a + b)[i] == if i < |a| then a[i] else b[i - |a|];
    }
  }

  lemma EscapedByteIsName(c: char, first: bool)
    requires c as int < 256
    ensures var t := EscapeByte(c, first);
            && t != "" && (first ==> t[0] != '.')
            && forall i | 0 <= i < |t| :: MayStay(t[i]) || t[i] == '-' || t[i] == '\\'
  {
  }

  lemma EscapeIsUnitName(s: string, isPath: bool)
    requires ByteString(s)
    ensures IsUnitName(EscapeUnit(s, isPath))
  {
    DropKeepsBytes(s);
    EscapedIsUnitName(if isPath then DropSlashes(s) else s);
  }

  /** A path, slash by slash. */
  lemma PathRoundTrip(s: string, n: nat)
    requires ByteString(s) && n <= |s| && (forall i | 0 <= i < n :: s[i] == '/') && (n < |s| ==> s[n] != '/')
    ensures Unescape(EscapeUnit(s, true)) == Ok(if n == |s| then "/" else s[n..])
  {
    EscapeRoundTrip(s, true);
    SlashesGo(s, n);
  }

  lemma {:induction false} SlashesGo(s: string, n: nat)
    requires n <= |s| && (forall i | 0 <= i < n :: s[i] == '/') && (n < |s| ==> s[n] != '/')
    ensures DropSlashes(s) == s[n..]
  {
    if n > 0 {
      SlashesGo(s[1..], n - 1);
    }
  }

  // ----- what is read, written out

  /** One character, or an escape with two hexadecimal digits of either case. */
  predicate ReadsAs(token: string, c: char) {
    || (|token| == 1 && token[0] != '\\' && c == if token[0] == '-' then '/' else token[0])
    || (|token| == 4 && token[0] == '\\' && token[1] == 'x' && IsHex(token[2]) && IsHex(token[3])
        && c as int == 16 * HexDigit(token[2]) + HexDigit(token[3]))
  }

  function Concat(tokens: seq<string>): string {
    if tokens == [] then "" else tokens[0] + Concat(tokens[1..])
  }

  ghost predicate Reads(tokens: seq<string>, s: string) {
    |tokens| == |s| && forall i | 0 <= i < |s| :: ReadsAs(tokens[i], s[i])
  }

  lemma TokenIsRead(token: string, c: char, rest: string)
    requires ReadsAs(token, c)
    ensures Unescape(token + rest) == Cons(c, Unescape(rest))
  {
    assert (token + rest)[|token|..] == rest;
    if |token| == 4 {
      assert (token + rest)[4..] == rest;
    } else {
      assert (token + rest)[1..] == rest;
    }
  }

  lemma {:induction false} TokensAreRead(tokens: seq<string>, s: string, rest: string)
    requires Reads(tokens, s)
    ensures Unescape(Concat(tokens) + rest) == Before(s, Unescape(rest))
  {
    if s == "" {
      assert Concat(tokens) + rest == rest;
      BeforeNothing(Unescape(rest));
    } else {
      hide ReadsAs;
      hide Unescape;
      var more := Concat(tokens[1..]) + rest;
      TokensAreRead(tokens[1..], s[1..], rest);
      TokenIsRead(tokens[0], s[0], more);
      assert Concat(tokens) + rest == tokens[0] + more;
      assert forall t: string :: [s[0]] + (s[1..] + t) == s + t;
    }
  }

  lemma {:induction false} Tokens(t: string) returns (tokens: seq<string>)
    requires Unescape(t).Ok?
    ensures Reads(tokens, Unescape(t).value) && t == Concat(tokens)
    decreases |t|
  {
    tokens := [];
    if t != "" {
      var n := if t[0] == '\\' then 4 else 1;
      tokens := Tokens(t[n..]);
      assert ReadsAs(t[..n], Unescape(t).value[0]);
      hide ReadsAs;
      assert t == t[..n] + t[n..];
      assert ([t[..n]] + tokens)[1..] == tokens;
      tokens := [t[..n]] + tokens;
    }
  }

  /** Exactly these texts are read, and as exactly these bytes. */
  lemma UnescapeIff(t: string, s: string)
    ensures Unescape(t) == Ok(s) <==> exists tokens :: Reads(tokens, s) && t == Concat(tokens)
  {
    if Unescape(t) == Ok(s) {
      var _ := Tokens(t);
    }
    if tokens :| Reads(tokens, s) && t == Concat(tokens) {
      TokensAreRead(tokens, s, "");
      assert t + "" == t && s + "" == s;
    }
  }

  /** And the first escape that is none decides the error. */
  lemma BadEscape(tokens: seq<string>, s: string, rest: string)
    requires Reads(tokens, s) && rest != "" && rest[0] == '\\'
    ensures |rest| < 4 ==> Unescape(Concat(tokens) + rest) == Err(ShortInput)
    ensures |rest| >= 4 && rest[1] != 'x' ==> Unescape(Concat(tokens) + rest) == Err(UnknownEscape)
    ensures |rest| >= 4 && rest[1] == 'x' && !(IsHex(rest[2]) && IsHex(rest[3])) ==>
              Unescape(Concat(tokens) + rest) == Err(BadHexDigit)
  {
    TokensAreRead(tokens, s, rest);
  }
}
