/** pbs-helper's command line: every argument reaches the program unchanged through a POSIX
    shell. */
module ShellQuote {
  import opened Wrappers

  const QUOTE := '\''
  const BACKSLASH := '\\'

  // ----- quoting

  function Escape(s: string): string {
    if s == "" then ""
    else (if s[0] == QUOTE then [QUOTE, BACKSLASH, QUOTE, QUOTE] else [s[0]]) + Escape(s[1..])
  }

  function Quote(s: string): string {
    [QUOTE] + Escape(s) + [QUOTE]
  }

  // ----- how a shell splits a simple command into words

  /** Characters that stand for themselves outside quotes.  Blank, quote and backslash are
      handled below; a command with any other is not taken for a list of plain words. */
  predicate IsPlain(c: char) {
    'a' <= c <= 'z' || 'A' <= c <= 'Z' || '0' <= c <= '9'
    || c == '_' || c == '-' || c == '=' || c == '.' || c == '/' || c == ':'
  }

  predicate Plain(s: string) {
    forall i | 0 <= i < |s| :: IsPlain(s[i])
  }

  /** Words of a command (sections 2.2.1 and 2.2.2 of XCU): `word` is the word being read,
      if one has begun. */
  function Words(s: string, word: Option<string>): Option<seq<string>>
    decreases |s|
  {
    if s == "" then Some(if word.Some? then [word.value] else [])
    else if s[0] == ' ' || s[0] == '\t' then
      match Words(s[1..], None)
      case None => None
      case Some(rest) => Some(if word.Some? then [word.value] + rest else rest)
    else if s[0] == QUOTE then InQuotes(s[1..], So(word))
    else if s[0] == BACKSLASH then
      if |s| == 1 then None
      else if s[1] == '\n' then Words(s[2..], word)
      else Words(s[2..], Some(So(word) + [s[1]]))
    else if IsPlain(s[0]) then Words(s[1..], Some(So(word) + [s[0]]))
    else None
  }

  /** Inside single quotes every character stands for itself. */
  function InQuotes(s: string, word: string): Option<seq<string>>
    decreases |s|
  {
    if s == "" then None
    else if s[0] == QUOTE then Words(s[1..], Some(word))
    else InQuotes(s[1..], word + [s[0]])
  }

  function So(word: Option<string>): string {
    if word.Some? then word.value else ""
  }

  // ----- the round trip

  lemma EscapedQuote(rest: string, word: string)
    ensures InQuotes([QUOTE, BACKSLASH, QUOTE, QUOTE] + rest, word) == InQuotes(rest, word + [QUOTE])
  {
    var s := [QUOTE, BACKSLASH, QUOTE, QUOTE] + rest;
    var s1 := s[1..];
    assert s1 == [BACKSLASH, QUOTE, QUOTE] + rest;
    assert s1[2..] == [QUOTE] + rest;
    assert s1[2..][1..] == rest;
    assert InQuotes(s, word) == Words(s1, Some(word)) == Words(s1[2..], Some(word + [QUOTE]));
  }

  lemma {:induction false} EscapeIsRead(a: string, rest: string, word: string)
    ensures InQuotes(Escape(a) + ([QUOTE] + rest), word) == Words(rest, Some(word + a))
  {
    var s := Escape(a) + ([QUOTE] + rest);
    if a == "" {
      assert s[1..] == rest && word + a == word;
    } else {
      var more := Escape(a[1..]) + ([QUOTE] + rest);
      assert word + [a[0]] + a[1..] == word + a;
      EscapeIsRead(a[1..], rest, word + [a[0]]);
      if a[0] == QUOTE {
        assert s == [QUOTE, BACKSLASH, QUOTE, QUOTE] + more;
        EscapedQuote(more, word);
      } else {
        assert s == [a[0]] + more && s[1..] == more;
      }
    }
  }

  lemma QuoteIsRead(a: string, rest: string, word: Option<string>)
    ensures Words(Quote(a) + rest, word) == Words(rest, Some(So(word) + a))
  {
    var s := Quote(a) + rest;
    assert s[1..] == Escape(a) + ([QUOTE] + rest);
    EscapeIsRead(a, rest, So(word));
  }

  lemma {:induction false} PlainIsRead(a: string, rest: string, word: Option<string>)
    requires Plain(a) && (a != "" || word.Some?)
    ensures Words(a + rest, word) == Words(rest, Some(So(word) + a))
  {
    if a == "" {
      assert a + rest == rest && So(word) + a == So(word);
    } else {
      assert (a + rest)[1..] == a[1..] + rest;
      assert So(word) + [a[0]] + a[1..] == So(word) + a;
      PlainIsRead(a[1..], rest, Some(So(word) + [a[0]]));
    }
  }

  /** Arguments as the command line holds them, each after a blank. */
  function Arguments(args: seq<string>): string {
    if args == [] then "" else Arguments(args[..|args| - 1]) + (" " + Quote(args[|args| - 1]))
  }

  function ArgumentsFrom(args: seq<string>): string {
    if args == [] then "" else " " + (Quote(args[0]) + ArgumentsFrom(args[1..]))
  }

  lemma Regroup(a: string, b: string, c: string, d: string)
    ensures (a + (b + c)) + d == a + (b + (c + d))
  {
  }

  lemma {:induction false} ArgumentsSplit(a: seq<string>, b: seq<string>)
    ensures Arguments(a) + ArgumentsFrom(b) == Arguments(a + b)
    decreases |b|
  {
    hide Quote;
    if b == [] {
      assert a + b == a;
      assert Arguments(a) + "" == Arguments(a);
    } else {
      var x := b[0];
      assert (a + [x])[..|a|] == a;
      assert a + b == (a + [x]) + b[1..];
      ArgumentsSplit(a + [x], b[1..]);
      Regroup(Arguments(a), " ", Quote(x), ArgumentsFrom(b[1..]));
    }
  }

  /** A blank ends a word. */
  lemma BlankIsRead(rest: string, word: string)
    requires Words(rest, None).Some?
    ensures Words(" " + rest, Some(word)) == Some([word] + Words(rest, None).value)
  {
    assert (" " + rest)[1..] == rest;
  }

  lemma {:induction false} ArgumentsAreRead(args: seq<string>, word: string)
    ensures Words(ArgumentsFrom(args), Some(word)) == Some([word] + args)
  {
    if args == [] {
      assert [word] + args == [word];
    } else {
      hide Quote;
      hide Words;
      var a, rest := args[0], ArgumentsFrom(args[1..]);
      var s := Quote(a) + rest;
      QuoteIsRead(a, rest, None);
      assert So(None) + a == a;
      ArgumentsAreRead(args[1..], a);
      assert Words(s, None) == Some([a] + args[1..]);
      assert [a] + args[1..] == args;
      BlankIsRead(s, word);
    }
  }

  /** Whatever the arguments contain, a shell hands the program exactly those. */
  lemma ArgumentsRoundTrip(program: string, args: seq<string>)
    requires program != "" && Plain(program)
    ensures Words(program + Arguments(args), None) == Some([program] + args)
  {
    ArgumentsSplit([], args);
    assert Arguments([]) + ArgumentsFrom(args) == ArgumentsFrom(args) && [] + args == args;
    PlainIsRead(program, ArgumentsFrom(args), None);
    assert So(None) + program == program;
    ArgumentsAreRead(args, program);
  }

  // ----- the backup command

  datatype Server = Server(repository: string, config: string, section: string, fingerprint: string)

  const UNSET := "unset PBS_PASSWORD PBS_PASSWORD_FD PBS_PASSWORD_FILE; "

  /** How the client is told to fetch the password. */
  function PasswordCommand(srv: Server): string {
    "uci -q get " + (srv.config + ("." + (srv.section + ".password")))
  }

  function Assign(name: string, value: string): string {
    name + (Quote(value) + " ")
  }

  lemma AssignIsRead(name: string, value: string, rest: string)
    requires name != "" && Plain(name) && Words(rest, None).Some?
    ensures Words(Assign(name, value) + rest, None) == Some([name + value] + Words(rest, None).value)
  {
    hide Quote;
    var s := Quote(value) + (" " + rest);
    assert Assign(name, value) + rest == name + s;
    PlainIsRead(name, s, None);
    assert So(None) + name == name;
    QuoteIsRead(value, " " + rest, Some(name));
    BlankIsRead(rest, name + value);
  }

  /** The names the client reads its settings from. */
  datatype Names = Names(repository: string, password: string, fingerprint: string, client: string) {
    predicate ArePlain() {
      && Plain(repository) && Plain(password) && Plain(fingerprint) && Plain(client) && Plain("exec")
      && repository != "" && password != "" && fingerprint != "" && client != ""
    }
  }

  const NAMES := Names("PBS_REPOSITORY=", "PBS_PASSWORD_CMD=", "PBS_FINGERPRINT=", "proxmox-backup-client")

  lemma NamesArePlain()
    ensures NAMES.ArePlain()
  {
    assert Plain(NAMES.repository);
    assert Plain(NAMES.password);
    assert Plain(NAMES.fingerprint);
    ClientIsPlain();
  }

  lemma ClientIsPlain()
    ensures Plain(NAMES.client) && Plain("exec")
  {
  }

  /** The words a shell must see: assignments, then the client and its arguments. */
  function Wanted(n: Names, srv: Server, args: seq<string>): seq<string> {
    [n.repository + srv.repository]
    + ([n.password + PasswordCommand(srv)]
       + ((if srv.fingerprint != "" then [n.fingerprint + srv.fingerprint] else [])
          + (["exec", n.client] + args)))
  }

  function Fingerprint(n: Names, srv: Server): string {
    if srv.fingerprint != "" then Assign(n.fingerprint, srv.fingerprint) else ""
  }

  function Middle(n: Names, srv: Server, args: seq<string>): string {
    Assign(n.repository, srv.repository)
    + (Assign(n.password, PasswordCommand(srv)) + (Fingerprint(n, srv) + ("exec " + n.client + Arguments(args))))
  }

  lemma MiddleIsRead(n: Names, srv: Server, args: seq<string>)
    requires n.ArePlain()
    ensures Words(Middle(n, srv, args), None) == Some(Wanted(n, srv, args))
  {
    hide Words;
    hide Plain;
    hide Assign;
    hide PasswordCommand;
    hide Arguments;
    var run := ExecIsRead(n.client, args);
    var rest := Fingerprint(n, srv) + run;
    var words := (if srv.fingerprint != "" then [n.fingerprint + srv.fingerprint] else [])
                 + (["exec", n.client] + args);
    if srv.fingerprint != "" {
      AssignIsRead(n.fingerprint, srv.fingerprint, run);
    } else {
      assert rest == run && words == ["exec", n.client] + args;
    }
    AssignIsRead(n.password, PasswordCommand(srv), rest);
    AssignIsRead(n.repository, srv.repository, Assign(n.password, PasswordCommand(srv)) + rest);
  }

  /** The command: old passwords are unset, then one simple command runs with exactly the
      wanted words, its errors sent where its output goes. */
  method BackupCommand(srv: Server, args: seq<string>) returns (r: string, ghost command: string)
    ensures r == "unset PBS_PASSWORD PBS_PASSWORD_FD PBS_PASSWORD_FILE; " + command + " 2>&1"
    ensures var fetch := "uci -q get " + srv.config + "." + srv.section + ".password";
            var fingerprint := if srv.fingerprint != "" then ["PBS_FINGERPRINT=" + srv.fingerprint] else [];
            Words(command, None) == Some(["PBS_REPOSITORY=" + srv.repository, "PBS_PASSWORD_CMD=" + fetch]
                                         + fingerprint + ["exec", "proxmox-backup-client"] + args)
  {
    hide Words;
    hide Middle;
    NamesArePlain();
    MiddleIsRead(NAMES, srv, args);
    WantedIs(srv, args);
    command := Middle(NAMES, srv, args);
    r := Build(UNSET, NAMES, srv, args);
  }

  lemma WantedIs(srv: Server, args: seq<string>)
    ensures var fetch := "uci -q get " + srv.config + "." + srv.section + ".password";
            var fingerprint := if srv.fingerprint != "" then ["PBS_FINGERPRINT=" + srv.fingerprint] else [];
            Wanted(NAMES, srv, args) == ["PBS_REPOSITORY=" + srv.repository, "PBS_PASSWORD_CMD=" + fetch]
                                        + fingerprint + ["exec", "proxmox-backup-client"] + args
  {
    FetchIs(srv.config, srv.section);
    assert PasswordCommand(srv) == PasswordCommand(Server("", srv.config, srv.section, ""));
    hide PasswordCommand;
    var fetch := PasswordCommand(srv);
    var fingerprint := if srv.fingerprint != "" then ["PBS_FINGERPRINT=" + srv.fingerprint] else [];
    OneByOne("PBS_REPOSITORY=" + srv.repository, "PBS_PASSWORD_CMD=" + fetch, fingerprint,
             ["exec", "proxmox-backup-client"], args);
  }

  lemma OneByOne(a: string, b: string, c: seq<string>, d: seq<string>, e: seq<string>)
    ensures [a] + ([b] + (c + (d + e))) == [a, b] + c + d + e
  {
  }

  lemma FetchIs(config: string, section: string)
    ensures PasswordCommand(Server("", config, section, "")) == "uci -q get " + config + "." + section + ".password"
  {
    FromTheLeft("uci -q get ", config, ".", section, ".password");
  }

  lemma FromTheLeft(a: string, b: string, c: string, d: string, e: string)
    ensures a + (b + (c + (d + e))) == a + b + c + d + e
  {
  }

  method Build(unset: string, n: Names, srv: Server, args: seq<string>) returns (cmd: string)
    ensures cmd == unset + Middle(n, srv, args) + " 2>&1"
  {
    hide Assign;
    hide PasswordCommand;
    cmd := unset;
    cmd := cmd + Assign(n.repository, srv.repository);
    cmd := cmd + Assign(n.password, PasswordCommand(srv));
    if srv.fingerprint != "" {
      cmd := cmd + Assign(n.fingerprint, srv.fingerprint);
    }
    assert cmd == unset + (Assign(n.repository, srv.repository)
                           + (Assign(n.password, PasswordCommand(srv)) + Fingerprint(n, srv)));
    cmd := cmd + ("exec " + n.client);
    cmd := Append(cmd, args);
    hide Arguments;
    assert cmd == unset + Middle(n, srv, args);
    cmd := cmd + " 2>&1";
  }

  method Append(start: string, args: seq<string>) returns (cmd: string)
    ensures cmd == start + Arguments(args)
  {
    hide Quote;
    cmd := start;
    for i := 0 to |args|
      invariant cmd == start + Arguments(args[..i])
    {
      assert args[..i + 1][..i] == args[..i];
      cmd := cmd + (" " + Quote(args[i]));
    }
    assert args[..|args|] == args;
  }

  lemma ExecIsRead(client: string, args: seq<string>) returns (run: string)
    requires Plain(client) && client != "" && Plain("exec")
    ensures run == "exec " + client + Arguments(args)
    ensures Words(run, None) == Some(["exec", client] + args)
  {
    hide Words;
    hide Plain;
    hide Arguments;
    ArgumentsRoundTrip(client, args);
    run := "exec " + client + Arguments(args);
    assert run == "exec" + (" " + (client + Arguments(args)));
    PlainIsRead("exec", " " + (client + Arguments(args)), None);
    assert So(None) + "exec" == "exec";
    BlankIsRead(client + Arguments(args), "exec");
    assert ["exec"] + ([client] + args) == ["exec", client] + args;
  }
}
