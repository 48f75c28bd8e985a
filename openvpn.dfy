/** openvpn2to3cli.py: folding the command-line options of an OpenVPN 2
    invocation into the lines of an `.ovpn` configuration. Credentials are
    written inline as a `<name>` block after the line naming the option. The
    configuration is a list of lines, each ending in a newline, that the
    splicer changes in place. Reading the files is left to the caller: the
    configuration lines and the credential file's content are inputs. */
module OpenVpn {
  import opened Results
  import opened PyText

  /** Unpacking the stripped credentials into a user name and a password
      fails unless they are exactly two lines; `pieces` is how many they are. */
  datatype AuthError = MalformedCredentials(pieces: nat)

  /** The position of the first occurrence of `x`: `list.index`. */
  function FirstIndex(lines: seq<string>, x: string): (i: nat)
    requires x in lines
    ensures i < |lines| && lines[i] == x && x !in lines[..i]
  {
    if lines[0] == x then 0
    else
      assert x in lines[1..] by {
        var k :| 0 <= k < |lines| && lines[k] == x;
        assert lines[1..][k - 1] == x;
      }
      var i := FirstIndex(lines[1..], x) + 1;
      assert lines[..i] == [lines[0]] + lines[1..][..i - 1];
      i
  }

  /** The line that names an option: the option followed by a newline. */
  function NameLine(name: string): string
  {
    name + "\n"
  }

  /** The inline credentials block. */
  function Block(name: string, user: string, password: string): seq<string>
  {
    ["<" + name + ">\n", user + "\n", password + "\n", "</" + name + ">\n"]
  }

  /** The credential file's content, stripped and split at newlines, must be
      exactly two lines. */
  function Credentials(auth: string): (r: Result<(string, string), AuthError>)
    ensures r.Success? ==> Strip(auth) == r.value.0 + "\n" + r.value.1 && '\n' !in r.value.0 && '\n' !in r.value.1
    ensures r.Failure? ==> r.error.pieces == Count(Strip(auth), '\n') + 1 != 2
  {
    var parts := Split(Strip(auth), '\n');
    SplitJoin(Strip(auth), '\n');
    SplitCount(Strip(auth), '\n');
    if |parts| == 2 then
      assert Join(parts, '\n') == parts[0] + ['\n'] + parts[1];
      Success((parts[0], parts[1]))
    else Failure(MalformedCredentials(|parts|))
  }

  /** The lines with the name line appended when it is missing. */
  function WithNameLine(lines: seq<string>, name: string): (r: seq<string>)
    ensures NameLine(name) in r
  {
    if NameLine(name) in lines then lines else lines + [NameLine(name)]
  }

  /** The block placed right after the first occurrence of the name line. */
  function Spliced(lines: seq<string>, name: string, user: string, password: string): seq<string>
  {
    var l := WithNameLine(lines, name);
    var pos := FirstIndex(l, NameLine(name)) + 1;
    l[..pos] + Block(name, user, password) + l[pos..]
  }

  /** Where the block goes and what stays put. With the name line present at
      its first occurrence `p`, everything up to and including it is unchanged,
      the block follows, and the rest is shifted by four; without it, the name
      line and the block are appended. Either way the first name line stays
      where it was and the block directly follows it. */
  lemma SplicedShape(lines: seq<string>, name: string, user: string, password: string)
    ensures var r := Spliced(lines, name, user, password);
      && (NameLine(name) in lines ==>
            var p := FirstIndex(lines, NameLine(name));
            && |r| == |lines| + 4
            && r[..p + 1] == lines[..p + 1]
            && r[p + 1..p + 5] == Block(name, user, password)
            && r[p + 5..] == lines[p + 1..])
      && (NameLine(name) !in lines ==> r == lines + [NameLine(name)] + Block(name, user, password))
      && NameLine(name) in r
      && FirstIndex(r, NameLine(name)) == FirstIndex(WithNameLine(lines, name), NameLine(name))
      && r[FirstIndex(r, NameLine(name)) + 1..FirstIndex(r, NameLine(name)) + 5] == Block(name, user, password)
  {
    var l := WithNameLine(lines, name);
    var x := NameLine(name);
    var p := FirstIndex(l, x);
    var r := Spliced(lines, name, user, password);
    var b := Block(name, user, password);
    assert r == l[..p + 1] + b + l[p + 1..];
    assert r[..p + 1] == l[..p + 1];
    assert r[..p] == l[..p];
    assert r[p] == x;
    assert r[p + 1..p + 5] == b;
    assert r[p + 5..] == l[p + 1..];
    if x !in lines {
      assert l == lines + [x];
      assert p == |lines|;
      assert l[..p + 1] == l;
    }
  }

  /** Inserting at the same position puts the new line before what was
      inserted there earlier. */
  lemma InsertBefore(l: seq<string>, pos: nat, x: string, placed: seq<string>)
    requires pos <= |l|
    ensures var m := l[..pos] + placed + l[pos..];
      m[..pos] + [x] + m[pos..] == l[..pos] + ([x] + placed) + l[pos..]
  {
    var m := l[..pos] + placed + l[pos..];
    assert m[..pos] == l[..pos];
    assert m[pos..] == placed + l[pos..];
  }

  /** The configuration being assembled: a list of lines. */
  class Config {
    var lines: seq<string>

    constructor (initial: seq<string>)
      ensures lines == initial
    {
      lines := initial;
    }

    /** `config.append(line)`. */
    method Append(line: string)
      modifies this
      ensures lines == old(lines) + [line]
    {
      lines := lines + [line];
    }

    /** `config.insert(pos, line)`. */
    method Insert(pos: nat, line: string)
      requires pos <= |lines|
      modifies this
      ensures lines == old(lines)[..pos] + [line] + old(lines)[pos..]
    {
      lines := lines[..pos] + [line] + lines[pos..];
    }

    /** insert_auth: the name line is found (or appended first), then the
        credentials are unpacked and the block is inserted after it, by four
        insertions at the same position in reverse order. When the credentials
        are malformed the name line may already have been appended. */
    method InsertAuth(name: string, auth: string) returns (r: Result<(), AuthError>)
      modifies this
      ensures Credentials(auth).Failure? ==>
        r == Failure(Credentials(auth).error) && lines == WithNameLine(old(lines), name)
      ensures Credentials(auth).Success? ==>
        r.Success? && lines == Spliced(old(lines), name, Credentials(auth).value.0, Credentials(auth).value.1)
    {
      var nameLine := name + "\n";
      assert nameLine == NameLine(name);
      var pos: nat;
      if nameLine in lines {
        pos := FirstIndex(lines, nameLine) + 1;
      } else {
        pos := |lines|;
        Insert(pos, nameLine);
        assert lines[..pos] == old(lines);
        pos := pos + 1;
      }
      assert lines == WithNameLine(old(lines), name);
      assert pos == FirstIndex(lines, nameLine) + 1;
      var parts := Split(Strip(auth), '\n');
      if |parts| != 2 {
        return Failure(MalformedCredentials(|parts|));
      }
      var username, password := parts[0], parts[1];
      assert Credentials(auth) == Success((username, password));
      ghost var l := lines;
      ghost var b := Block(name, username, password);
      assert l == l[..pos] + [] + l[pos..];
      assert b[3..] == [b[3]] + [] && b[2..] == [b[2]] + b[3..] && b[1..] == [b[1]] + b[2..] && b == [b[0]] + b[1..];
      Insert(pos, "</" + name + ">\n");
      InsertBefore(l, pos, b[3], []);
      assert lines == l[..pos] + b[3..] + l[pos..];
      Insert(pos, password + "\n");
      InsertBefore(l, pos, b[2], b[3..]);
      assert lines == l[..pos] + b[2..] + l[pos..];
      Insert(pos, username + "\n");
      InsertBefore(l, pos, b[1], b[2..]);
      assert lines == l[..pos] + b[1..] + l[pos..];
      Insert(pos, "<" + name + ">\n");
      InsertBefore(l, pos, b[0], b[1..]);
      assert lines == l[..pos] + b + l[pos..];
      assert Spliced(old(lines), name, username, password) == l[..pos] + b + l[pos..];
      r := Success(());
    }

    /** The options appended after the proxy credentials: one
        `http-proxy-option` line per option in order, then the data ciphers
        and their fallback when given. */
    method AppendOptions(opts: Options)
      modifies this
      ensures lines == old(lines) + OptionLines(opts.httpProxyOption) + CipherLines(opts)
    {
      for i := 0 to |opts.httpProxyOption|
        invariant lines == old(lines) + OptionLines(opts.httpProxyOption[..i])
      {
        assert OptionLines(opts.httpProxyOption[..i + 1]) ==
          OptionLines(opts.httpProxyOption[..i]) + ["http-proxy-option " + opts.httpProxyOption[i] + "\n"];
        Append("http-proxy-option " + opts.httpProxyOption[i] + "\n");
      }
      assert opts.httpProxyOption[..|opts.httpProxyOption|] == opts.httpProxyOption;
      ghost var afterOptions := lines;
      if opts.dataCiphers != "" {
        Append("data-ciphers " + opts.dataCiphers + "\n");
      }
      if opts.dataCiphersFallback != "" {
        Append("data-ciphers-fallback " + opts.dataCiphersFallback + "\n");
      }
      CipherLinesAppended(afterOptions, lines, opts);
    }
  }

  /** The options of combine_config. A credential option carries the content
      of its file and is None when no file was given (or its name was empty);
      the other options are absent when None or empty, as Python's truth test
      treats them. */
  datatype Options = Options(
    authUserPass: Option<string>,
    httpProxy: Option<(string, string)>,
    httpProxyUserPass: Option<string>,
    httpProxyOption: seq<string>,
    dataCiphers: string,
    dataCiphersFallback: string)

  /** insert_auth on a value, when the option is given. */
  function AuthStep(lines: seq<string>, name: string, auth: Option<string>): Result<seq<string>, AuthError>
  {
    if auth.None? then Success(lines)
    else
      match Credentials(auth.value)
      case Failure(e) => Failure(e)
      case Success((user, password)) => Success(Spliced(lines, name, user, password))
  }

  function ProxyLine(proxy: (string, string)): string
  {
    "http-proxy " + proxy.0 + " " + proxy.1 + "\n"
  }

  function OptionLines(options: seq<string>): (r: seq<string>)
    ensures |r| == |options| && forall i :: 0 <= i < |options| ==> r[i] == "http-proxy-option " + options[i] + "\n"
  {
    seq(|options|, i requires 0 <= i < |options| => "http-proxy-option " + options[i] + "\n")
  }

  /** The lines appended after the proxy credentials, in order. */
  function CipherLines(opts: Options): seq<string>
  {
    (if opts.dataCiphers != "" then ["data-ciphers " + opts.dataCiphers + "\n"] else [])
    + (if opts.dataCiphersFallback != "" then ["data-ciphers-fallback " + opts.dataCiphersFallback + "\n"] else [])
  }

  /** The proxy line appended, when a proxy is given. */
  function WithProxy(lines: seq<string>, opts: Options): seq<string>
  {
    if opts.httpProxy.Some? then lines + [ProxyLine(opts.httpProxy.value)] else lines
  }

  /** The two optional cipher lines, appended one after the other. */
  lemma CipherLinesAppended(before: seq<string>, after: seq<string>, opts: Options)
    requires var withCiphers := if opts.dataCiphers != "" then before + ["data-ciphers " + opts.dataCiphers + "\n"] else before;
      after == if opts.dataCiphersFallback != ""
               then withCiphers + ["data-ciphers-fallback " + opts.dataCiphersFallback + "\n"] else withCiphers
    ensures after == before + CipherLines(opts)
  {
  }

  /** What combine_config produces from the configuration's lines. */
  function Combined(fileLines: seq<string>, opts: Options): Result<seq<string>, AuthError>
  {
    match AuthStep(fileLines, "auth-user-pass", opts.authUserPass)
    case Failure(e) => Failure(e)
    case Success(withAuth) =>
      match AuthStep(WithProxy(withAuth, opts), "http-proxy-user-pass", opts.httpProxyUserPass)
      case Failure(e) => Failure(e)
      case Success(withProxyAuth) => Success(withProxyAuth + OptionLines(opts.httpProxyOption) + CipherLines(opts))
  }

  /** combine_config: the additions in their fixed order, each only when its
      option is given: the user credentials, the proxy, the proxy credentials,
      the proxy options one line each, the data ciphers and their fallback. */
  method CombineConfig(fileLines: seq<string>, opts: Options) returns (r: Result<seq<string>, AuthError>)
    ensures r == Combined(fileLines, opts)
  {
    var config := new Config(fileLines);
    if opts.authUserPass.Some? {
      var e := config.InsertAuth("auth-user-pass", opts.authUserPass.value);
      if e.Failure? {
        return Failure(e.error);
      }
    }
    assert AuthStep(fileLines, "auth-user-pass", opts.authUserPass) == Success(config.lines);
    ghost var withAuth := config.lines;
    if opts.httpProxy.Some? {
      var (ip, port) := opts.httpProxy.value;
      config.Append("http-proxy " + ip + " " + port + "\n");
    }
    assert config.lines == WithProxy(withAuth, opts);
    if opts.httpProxyUserPass.Some? {
      var e := config.InsertAuth("http-proxy-user-pass", opts.httpProxyUserPass.value);
      if e.Failure? {
        return Failure(e.error);
      }
    }
    assert AuthStep(WithProxy(withAuth, opts), "http-proxy-user-pass", opts.httpProxyUserPass) == Success(config.lines);
    config.AppendOptions(opts);
    r := Success(config.lines);
  }

  /** combine_config fails exactly when a credential file is given whose
      content is not two lines. */
  lemma CombinedFails(fileLines: seq<string>, opts: Options)
    ensures Combined(fileLines, opts).Failure? <==>
      (opts.authUserPass.Some? && Credentials(opts.authUserPass.value).Failure?)
      || (opts.httpProxyUserPass.Some? && Credentials(opts.httpProxyUserPass.value).Failure?)
  {
  }

  /** Without credentials the additions are appended to the file's lines in
      their fixed order, and with no option at all the lines are unchanged. */
  lemma CombinedAppends(fileLines: seq<string>, opts: Options)
    requires opts.authUserPass.None? && opts.httpProxyUserPass.None?
    ensures Combined(fileLines, opts) == Success(fileLines
      + (if opts.httpProxy.Some? then [ProxyLine(opts.httpProxy.value)] else [])
      + OptionLines(opts.httpProxyOption) + CipherLines(opts))
    ensures opts.httpProxy.None? && opts.httpProxyOption == [] && opts.dataCiphers == "" && opts.dataCiphersFallback == "" ==>
      Combined(fileLines, opts) == Success(fileLines)
  {
    assert AuthStep(fileLines, "auth-user-pass", opts.authUserPass) == Success(fileLines);
    var withProxy := WithProxy(fileLines, opts);
    assert AuthStep(withProxy, "http-proxy-user-pass", opts.httpProxyUserPass) == Success(withProxy);
    assert OptionLines([]) == [];
    assert fileLines + [] == fileLines;
    assert Combined(fileLines, opts) == Success(withProxy + OptionLines(opts.httpProxyOption) + CipherLines(opts));
    if opts.httpProxy.None? && opts.httpProxyOption == [] && opts.dataCiphers == "" && opts.dataCiphersFallback == "" {
      assert CipherLines(opts) == [];
    }
  }

  /** Each credential block grows the configuration by four lines, or five
      when its name line was missing. */
  lemma CombinedLength(fileLines: seq<string>, opts: Options)
    requires Combined(fileLines, opts).Success?
    ensures |Combined(fileLines, opts).value| ==
      |fileLines| + AuthGrowth(fileLines, "auth-user-pass", opts.authUserPass)
      + (if opts.httpProxy.Some? then 1 else 0)
      + AuthGrowth(AuthStep(fileLines, "auth-user-pass", opts.authUserPass).value
                   + (if opts.httpProxy.Some? then [ProxyLine(opts.httpProxy.value)] else []),
                   "http-proxy-user-pass", opts.httpProxyUserPass)
      + |opts.httpProxyOption| + |CipherLines(opts)|
  {
    if opts.authUserPass.Some? {
      var c := Credentials(opts.authUserPass.value).value;
      SplicedShape(fileLines, "auth-user-pass", c.0, c.1);
    }
    var withAuth := AuthStep(fileLines, "auth-user-pass", opts.authUserPass).value;
    var withProxy := withAuth + (if opts.httpProxy.Some? then [ProxyLine(opts.httpProxy.value)] else []);
    if opts.httpProxyUserPass.Some? {
      var c := Credentials(opts.httpProxyUserPass.value).value;
      SplicedShape(withProxy, "http-proxy-user-pass", c.0, c.1);
    }
  }

  /** How many lines a credential option adds: none when absent, five when its
      name line has to be appended, four otherwise. */
  function AuthGrowth(lines: seq<string>, name: string, auth: Option<string>): nat
  {
    if auth.None? then 0 else if NameLine(name) in lines then 4 else 5
  }
}
