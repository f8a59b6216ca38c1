/**
 Printing a command so that a shell reads back the same arguments.  The reader
 follows section 2.2 (quoting) and 2.3 (token recognition) of the POSIX.1-2017
 Shell Command Language and gives up on every unquoted character that could
 mean something else than itself.
 */
module ShellQuote {
  import opened Wrappers

  const NUL := '\0'

  // ---------------------------------------------------------------- the reader

  datatype Mode = Plain | Single | Double | Escape | DoubleEscape

  /** Words read so far, the word in progress, and the quoting in force. */
  datatype Lexer = Lexer(words: seq<string>, word: Option<string>, mode: Mode)

  function Word(st: Lexer): string { if st.word.Some? then st.word.value else "" }

  function Add(st: Lexer, c: char, mode: Mode): Lexer { Lexer(st.words, Some(Word(st) + [c]), mode) }

  predicate IsBlank(c: char) { c == ' ' || c == '\t' }

  predicate IsAlnum(c: char) { 'a' <= c <= 'z' || 'A' <= c <= 'Z' || '0' <= c <= '9' }

  /** Stands for itself outside quotes; `=` only where no assignment can stand. */
  predicate IsLiteral(c: char, commandPosition: bool) {
    || IsAlnum(c) || c == '-' || c == '_' || c == '/' || c == '.' || c == ':' || c == '@' || c == '+'
    || (c == '=' && !commandPosition)
  }

  function Step(st: Lexer, c: char): Option<Lexer> {
    if c == NUL then None
    else match st.mode
         case Plain =>
           if c == '\'' then Some(Lexer(st.words, Some(Word(st)), Single))
           else if c == '"' then Some(Lexer(st.words, Some(Word(st)), Double))
           else if c == '\\' then Some(st.(mode := Escape))
           else if IsBlank(c) then Some(if st.word.None? then st else Lexer(st.words + [st.word.value], None, Plain))
           else if IsLiteral(c, st.words == []) then Some(Add(st, c, Plain))
           else None
         case Single => Some(if c == '\'' then st.(mode := Plain) else Add(st, c, Single))
         case Double =>
           if c == '"' then Some(st.(mode := Plain))
           else if c == '\\' then Some(st.(mode := DoubleEscape))
           else if c == '$' || c == '`' then None
           else Some(Add(st, c, Double))
         case Escape => Some(if c == '\n' then st.(mode := Plain) else Add(st, c, Plain))
         case DoubleEscape =>
           Some(if c == '\n' then st.(mode := Double)
                else if c == '$' || c == '`' || c == '"' || c == '\\' then Add(st, c, Double)
                else Add(Add(st, '\\', Double), c, Double))
  }

  function Scan(st: Lexer, s: string): Option<Lexer>
    decreases |s|
  {
    if s == [] then Some(st)
    else match Step(st, s[0])
         case None => None
         case Some(next) => Scan(next, s[1..])
  }

  /** The argument list of a simple command, if the text is one without expansions. */
  function Tokenize(s: string): Option<seq<string>> {
    match Scan(Lexer([], None, Plain), s)
    case None => None
    case Some(Lexer(words, word, mode)) =>
      if mode != Plain then None else Some(if word.Some? then words + [word.value] else words)
  }

  // ---------------------------------------------------------------- the printer

  predicate IsShellSafe(c: char) {
    IsAlnum(c) || c == '-' || c == '_' || c == '/' || c == '.' || c == ':' || c == '@' || c == '+' || c == '='
  }

  predicate AllSafe(s: string) { forall c | c in s :: IsShellSafe(c) }

  /** Every single quote becomes: close, escaped quote, reopen. */
  function Escaped(s: string): string {
    if s == [] then [] else (if s[0] == '\'' then "'\\''" else [s[0]]) + Escaped(s[1..])
  }

  function Quote(s: string): string {
    if s == "" then "''" else if AllSafe(s) then s else "'" + Escaped(s) + "'"
  }

  /** `shellQuote`: scan for the first character that needs quoting. */
  method QuoteWord(s: string) returns (r: string)
    ensures r == Quote(s)
  {
    if s == "" { return "''"; }
    for i := 0 to |s|
      invariant forall j | 0 <= j < i :: IsShellSafe(s[j])
    {
      if IsShellSafe(s[i]) { continue; }
      assert s[i] in s;
      return "'" + Escaped(s) + "'";
    }
    return s;
  }

  /** `strings.Join` with one blank. */
  function Join(parts: seq<string>): string {
    if parts == [] then []
    else if |parts| == 1 then parts[0]
    else Join(parts[..|parts| - 1]) + [' '] + parts[|parts| - 1]
  }

  function Quoted(words: seq<string>): (parts: seq<string>)
    ensures |parts| == |words|
  {
    if words == [] then [] else Quoted(words[..|words| - 1]) + [Quote(words[|words| - 1])]
  }

  // ---------------------------------------------------------------- reading what was printed

  lemma {:induction false} ScanConcat(st: Lexer, a: string, b: string)
    ensures Scan(st, a + b) == match Scan(st, a) case None => None case Some(next) => Scan(next, b)
    decreases |a|
  {
    hide Step;
    if a == [] {
      assert a + b == b;
    } else {
      assert (a + b)[0] == a[0] && (a + b)[1..] == a[1..] + b;
      match Step(st, a[0])
      case None =>
      case Some(next) => ScanConcat(next, a[1..], b);
    }
  }

  lemma {:induction false} ScanOne(st: Lexer, c: char)
    ensures Scan(st, [c]) == Step(st, c)
  {
  }

  /** Safe text is read as it stands. */
  lemma {:induction false} ScanSafe(st: Lexer, s: string)
    requires st.mode == Plain && AllSafe(s) && s != [] && (st.words == [] ==> '=' !in s)
    ensures Scan(st, s) == Some(Lexer(st.words, Some(Word(st) + s), Plain))
    decreases |s|
  {
    assert s[0] in s && IsLiteral(s[0], st.words == []);
    assert Step(st, s[0]) == Some(Add(st, s[0], Plain));
    if |s| == 1 {
      assert s == [s[0]];
      ScanOne(st, s[0]);
    } else {
      ScanSafe(Add(st, s[0], Plain), s[1..]);
      assert Word(st) + [s[0]] + s[1..] == Word(st) + s;
    }
  }

  /** A quote inside quotes: close, escaped quote, reopen. */
  lemma {:induction false} ScanQuoteMark(words: seq<string>, w: string)
    ensures Scan(Lexer(words, Some(w), Single), "'\\''") == Some(Lexer(words, Some(w + ['\'']), Single))
  {
  }

  /** Inside quotes the escaped text stands for the text. */
  lemma {:induction false} ScanEscaped(words: seq<string>, w: string, s: string)
    requires NUL !in s
    ensures Scan(Lexer(words, Some(w), Single), Escaped(s)) == Some(Lexer(words, Some(w + s), Single))
    decreases |s|
  {
    if s == [] {
      assert w + s == w;
    } else {
      var st, c := Lexer(words, Some(w), Single), s[0];
      var first := if c == '\'' then "'\\''" else [c];
      assert c in s;
      if c == '\'' { ScanQuoteMark(words, w); } else { ScanOne(st, c); }
      ScanConcat(st, first, Escaped(s[1..]));
      ScanEscaped(words, w + [c], s[1..]);
      assert w + [c] + s[1..] == w + s;
    }
  }

  /** A quoted word is read as one word, wherever it stands as an argument. */
  lemma {:induction false} ScanQuote(words: seq<string>, s: string)
    requires NUL !in s && (words == [] ==> AllSafe(s) && '=' !in s && s != "")
    ensures Scan(Lexer(words, None, Plain), Quote(s)) == Some(Lexer(words, Some(s), Plain))
  {
    var st := Lexer(words, None, Plain);
    if s == "" {
      ScanOne(st, '\'');
      ScanOne(Lexer(words, Some(""), Single), '\'');
      ScanConcat(st, ['\''], ['\'']);
      assert "''" == ['\''] + ['\''];
    } else if AllSafe(s) {
      ScanSafe(st, s);
      assert "" + s == s;
    } else {
      ScanOne(st, '\'');
      ScanConcat(st, "'", Escaped(s));
      ScanEscaped(words, "", s);
      assert "" + s == s;
      ScanConcat(st, "'" + Escaped(s), "'");
      ScanOne(Lexer(words, Some(s), Single), '\'');
    }
  }

  predicate NulFree(words: seq<string>) { forall w | w in words :: NUL !in w }

  /** A word that stands for itself even as the command name, where `=` would make it an assignment. */
  predicate IsPlainWord(w: string) { w != "" && AllSafe(w) && '=' !in w }

  lemma {:induction false} ScanJoined(words: seq<string>)
    requires words != [] && IsPlainWord(words[0]) && NulFree(words)
    ensures Scan(Lexer([], None, Plain), Join(Quoted(words))) ==
            Some(Lexer(words[..|words| - 1], Some(words[|words| - 1]), Plain))
    decreases |words|
  {
    hide Step, Quote, AllSafe;
    var n, st := |words| - 1, Lexer([], None, Plain);
    var front, last := words[..n], words[n];
    assert last in words;
    if n == 0 {
      assert words == [last] && Quoted(words) == [Quote(last)] && front == [] by { assert Quoted(front) == []; }
      ScanQuote([], last);
    } else {
      assert Quoted(words)[..n] == Quoted(front);
      assert forall w | w in front :: w in words;
      ScanJoined(front);
      ScanBlank(front[..n - 1], front[n - 1]);
      assert front[..n - 1] + [front[n - 1]] == front;
      ScanConcat(st, Join(Quoted(front)), [' ']);
      ScanQuote(front, last);
      ScanConcat(st, Join(Quoted(front)) + [' '], Quote(last));
    }
  }

  /** An unquoted blank ends the word in progress. */
  lemma {:induction false} ScanBlank(words: seq<string>, w: string)
    ensures Scan(Lexer(words, Some(w), Plain), [' ']) == Some(Lexer(words + [w], None, Plain))
  {
  }

  // ---------------------------------------------------------------- NUL

  lemma {:induction false} NulIsRejected(st: Lexer, s: string)
    requires NUL in s
    ensures Scan(st, s) == None
    decreases |s|
  {
    if s[0] != NUL {
      assert NUL in s[1..];
      match Step(st, s[0])
      case None =>
      case Some(next) => NulIsRejected(next, s[1..]);
    }
  }

  lemma {:induction false} EscapedKeeps(s: string, c: char)
    requires c in s
    ensures c in Escaped(s)
    decreases |s|
  {
    if s[0] != c {
      assert c in s[1..];
      EscapedKeeps(s[1..], c);
    }
  }

  lemma {:induction false} JoinedKeeps(words: seq<string>, w: string, c: char)
    requires w in words && c in w
    ensures c in Join(Quoted(words))
    decreases |words|
  {
    var n := |words| - 1;
    assert c in Quote(w) by { EscapedKeeps(w, c); }
    assert Quoted(words)[..n] == Quoted(words[..n]);
    if w != words[n] {
      assert w in words[..n];
      JoinedKeeps(words[..n], w, c);
    }
  }

  /** Reading back what was printed gives the words, exactly when no word holds a NUL. */
  lemma {:induction false} QuotingRoundTrips(words: seq<string>)
    requires words != [] && IsPlainWord(words[0])
    ensures Tokenize(Join(Quoted(words))) == Some(words) <==> NulFree(words)
    ensures !NulFree(words) ==> Tokenize(Join(Quoted(words))) == None
  {
    hide AllSafe;
    if NulFree(words) {
      ScanJoined(words);
      assert words[..|words| - 1] + [words[|words| - 1]] == words;
    } else {
      var w :| w in words && NUL in w;
      JoinedKeeps(words, w, NUL);
      NulIsRejected(Lexer([], None, Plain), Join(Quoted(words)));
    }
  }

  /** Two argument lists never print alike. */
  lemma {:induction false} QuotingIsInjective(a: seq<string>, b: seq<string>)
    requires a != [] && IsPlainWord(a[0]) && NulFree(a)
    requires b != [] && IsPlainWord(b[0]) && NulFree(b)
    requires Join(Quoted(a)) == Join(Quoted(b))
    ensures a == b
  {
    QuotingRoundTrips(a);
    QuotingRoundTrips(b);
  }

  // ---------------------------------------------------------------- the command to run again

  const DEFAULT_KEY_SECRET := "oberth-upstream-key"
  const DEFAULT_KNOWN_HOSTS_SECRET := "oberth-known-hosts"

  /** What the operator asked for; `defaultNamespace` comes from the environment. */
  datatype Request = Request(name: string, baseUrl: string, dedicatedKey: bool, namespace: string, keySecret: string,
                             knownHostsSecret: string, fingerprint: string, defaultNamespace: string)

  function Given(present: bool, option: string, value: string): seq<string> {
    if present then [option, value] else []
  }

  /** The arguments that repeat the request. */
  function Arguments(r: Request): seq<string> {
    ["oberth", "upstream", "add"] + (if r.dedicatedKey then ["--dedicated-key"] else []) +
    Given(r.namespace != r.defaultNamespace, "--namespace", r.namespace) +
    Given(r.keySecret != DEFAULT_KEY_SECRET, "--upstream-key-secret", r.keySecret) +
    Given(r.knownHostsSecret != DEFAULT_KNOWN_HOSTS_SECRET, "--known-hosts-secret", r.knownHostsSecret) +
    Given(r.fingerprint != "", "--expected-host-fingerprint", r.fingerprint) + [r.name, r.baseUrl]
  }

  lemma CommandIsSafe()
    ensures IsPlainWord("oberth") && IsPlainWord("upstream") && IsPlainWord("add")
  {
  }

  lemma FlagsAreSafe()
    ensures IsPlainWord("--dedicated-key") && IsPlainWord("--namespace")
  {
  }

  lemma SecretOptionsAreSafe()
    ensures IsPlainWord("--upstream-key-secret") && IsPlainWord("--known-hosts-secret")
  {
  }

  lemma FingerprintOptionIsSafe()
    ensures IsPlainWord("--expected-host-fingerprint")
  {
  }

  /** The parts so far print the words so far. */
  ghost predicate Prints(parts: seq<string>, words: seq<string>) {
    parts != [] && words != [] && Join(parts) == Join(Quoted(words))
  }

  lemma {:induction false} PrintsCommand()
    ensures Prints(["oberth upstream add"], ["oberth", "upstream", "add"])
  {
    CommandIsSafe();
    var a: seq<string>, b: seq<string>, c := ["oberth"], ["oberth", "upstream"], ["oberth", "upstream", "add"];
    assert a[..0] == [] && b[..1] == a && c[..2] == b;
    assert Quoted(a) == a && Quoted(b) == b && Quoted(c) == c;
    assert Join(b) == "oberth" + [' '] + "upstream" == "oberth upstream";
    assert Join(c) == "oberth upstream" + [' '] + "add" == "oberth upstream add";
  }

  lemma {:induction false} PrintsOneMore(parts: seq<string>, words: seq<string>, w: string)
    requires Prints(parts, words)
    ensures Prints(parts + [Quote(w)], words + [w])
  {
  }

  /** An option and its value, when given. */
  method PutOption(parts: seq<string>, ghost words: seq<string>, given: bool, option: string, value: string)
    returns (next: seq<string>)
    requires Prints(parts, words) && IsPlainWord(option)
    ensures Prints(next, words + Given(given, option, value))
  {
    hide Join, Quoted, Prints, AllSafe, Escaped;
    next := parts;
    assert words + [] == words;
    if given {
      PrintsOneMore(parts, words, option);
      PrintsOneMore(parts + [option], words + [option], value);
      var quoted := QuoteWord(value);
      next := parts + [option, quoted];
      assert next == parts + [option] + [quoted] && words + [option, value] == words + [option] + [value];
    }
  }

  /** The name and the URL, and the parts joined. */
  method Finish(r: Request, parts: seq<string>, ghost words: seq<string>) returns (text: string)
    requires Prints(parts, words) && words + [r.name, r.baseUrl] == Arguments(r)
    ensures text == Join(Quoted(Arguments(r)))
  {
    hide Quote;
    var name := QuoteWord(r.name);
    var url := QuoteWord(r.baseUrl);
    PrintsOneMore(parts, words, r.name);
    PrintsOneMore(parts + [name], words + [r.name], r.baseUrl);
    assert parts + [name] + [url] == parts + [name, url];
    assert words + [r.name] + [r.baseUrl] == words + [r.name, r.baseUrl];
    text := Join(parts + [name, url]);
  }

  /** `upstreamAddRerunCommand`: a shell given the text runs the request's own arguments. */
  method UpstreamAddRerunCommand(r: Request) returns (text: string)
    ensures Tokenize(text) == Some(Arguments(r)) <==> NulFree(Arguments(r))
    ensures !NulFree(Arguments(r)) ==> Tokenize(text) == None
  {
    hide Join, Quoted, Prints, NulFree, Tokenize, AllSafe, Escaped;
    PrintsCommand();
    CommandIsSafe();
    FlagsAreSafe();
    SecretOptionsAreSafe();
    FingerprintOptionIsSafe();
    var parts := ["oberth upstream add"];
    ghost var words := ["oberth", "upstream", "add"];
    if r.dedicatedKey {
      PrintsOneMore(parts, words, "--dedicated-key");
      parts := parts + ["--dedicated-key"];
    }
    assert words + [] == words;
    words := words + (if r.dedicatedKey then ["--dedicated-key"] else []);
    parts := PutOption(parts, words, r.namespace != r.defaultNamespace, "--namespace", r.namespace);
    words := words + Given(r.namespace != r.defaultNamespace, "--namespace", r.namespace);
    parts := PutOption(parts, words, r.keySecret != DEFAULT_KEY_SECRET, "--upstream-key-secret", r.keySecret);
    words := words + Given(r.keySecret != DEFAULT_KEY_SECRET, "--upstream-key-secret", r.keySecret);
    var otherHosts := r.knownHostsSecret != DEFAULT_KNOWN_HOSTS_SECRET;
    parts := PutOption(parts, words, otherHosts, "--known-hosts-secret", r.knownHostsSecret);
    words := words + Given(otherHosts, "--known-hosts-secret", r.knownHostsSecret);
    parts := PutOption(parts, words, r.fingerprint != "", "--expected-host-fingerprint", r.fingerprint);
    words := words + Given(r.fingerprint != "", "--expected-host-fingerprint", r.fingerprint);
    text := Finish(r, parts, words);
    QuotingRoundTrips(Arguments(r));
  }

  // ---------------------------------------------------------------- reading the arguments back

  /** How the flag parser of `upstream add` reads its arguments: options first, then exactly a name and a URL. */
  function ReadArguments(acc: Request, args: seq<string>): Option<Request>
    decreases |args|
  {
    if args == [] || |args[0]| < 2 || args[0][0] != '-' then Positional(acc, args)
    else if args[0] == "--" then Positional(acc, args[1..])
    else if args[0] == "--dedicated-key" then ReadArguments(acc.(dedicatedKey := true), args[1..])
    else if |args| < 2 then None
    else if args[0] == "--namespace" then ReadArguments(acc.(namespace := args[1]), args[2..])
    else if args[0] == "--upstream-key-secret" then ReadArguments(acc.(keySecret := args[1]), args[2..])
    else if args[0] == "--known-hosts-secret" then ReadArguments(acc.(knownHostsSecret := args[1]), args[2..])
    else if args[0] == "--expected-host-fingerprint" then ReadArguments(acc.(fingerprint := args[1]), args[2..])
    else None
  }

  function Positional(acc: Request, args: seq<string>): Option<Request> {
    if |args| == 2 then Some(acc.(name := args[0], baseUrl := args[1])) else None
  }

  /** What the parser starts from. */
  function Defaults(defaultNamespace: string): Request {
    Request("", "", false, defaultNamespace, "oberth-upstream-key", "oberth-known-hosts", "", defaultNamespace)
  }

  lemma OptionLengths()
    ensures |"--dedicated-key"| == 15 && |"--namespace"| == 11 && |"--upstream-key-secret"| == 21
    ensures |"--known-hosts-secret"| == 20 && |"--expected-host-fingerprint"| == 27
  {
  }

  lemma {:induction false} ReadDedicated(acc: Request, given: bool, rest: seq<string>)
    requires !acc.dedicatedKey
    ensures ReadArguments(acc, (if given then ["--dedicated-key"] else []) + rest) == ReadArguments(acc.(dedicatedKey := given), rest)
  {
    assert [] + rest == rest && (["--dedicated-key"] + rest)[1..] == rest;
  }

  lemma {:induction false} ReadNamespace(acc: Request, value: string, rest: seq<string>)
    ensures ReadArguments(acc, Given(value != acc.namespace, "--namespace", value) + rest) ==
            ReadArguments(acc.(namespace := value), rest)
  {
    assert [] + rest == rest && (["--namespace", value] + rest)[2..] == rest;
  }

  lemma {:induction false} ReadKeySecret(acc: Request, value: string, rest: seq<string>)
    ensures ReadArguments(acc, Given(value != acc.keySecret, "--upstream-key-secret", value) + rest) ==
            ReadArguments(acc.(keySecret := value), rest)
  {
    OptionLengths();
    assert [] + rest == rest && (["--upstream-key-secret", value] + rest)[2..] == rest;
  }

  lemma {:induction false} ReadHostsSecret(acc: Request, value: string, rest: seq<string>)
    ensures ReadArguments(acc, Given(value != acc.knownHostsSecret, "--known-hosts-secret", value) + rest) ==
            ReadArguments(acc.(knownHostsSecret := value), rest)
  {
    OptionLengths();
    assert [] + rest == rest && (["--known-hosts-secret", value] + rest)[2..] == rest;
  }

  lemma {:induction false} ReadFingerprint(acc: Request, value: string, rest: seq<string>)
    ensures ReadArguments(acc, Given(value != acc.fingerprint, "--expected-host-fingerprint", value) + rest) ==
            ReadArguments(acc.(fingerprint := value), rest)
  {
    OptionLengths();
    assert [] + rest == rest && (["--expected-host-fingerprint", value] + rest)[2..] == rest;
  }

  lemma {:induction false} TooFew(acc: Request, args: seq<string>)
    requires |args| <= 1
    ensures ReadArguments(acc, args) == None
  {
    if args != [] { assert args[1..] == []; }
  }

  /** Two last arguments are the name and the URL exactly if the name does not look like an option. */
  lemma {:induction false} ReadNames(acc: Request, name: string, url: string)
    ensures ReadArguments(acc, [name, url]) == Some(acc.(name := name, baseUrl := url)) <==> |name| < 2 || name[0] != '-'
  {
    assert [name, url][1..] == [url] && [name, url][2..] == [];
    TooFew(acc.(dedicatedKey := true), [url]);
    TooFew(acc.(namespace := url), []);
    TooFew(acc.(keySecret := url), []);
    TooFew(acc.(knownHostsSecret := url), []);
    TooFew(acc.(fingerprint := url), []);
  }

  lemma Regroup(a: seq<string>, b: seq<string>, c: seq<string>, d: seq<string>, e: seq<string>, f: seq<string>, g: seq<string>)
    ensures a + b + c + d + e + f + g == a + (b + (c + (d + (e + (f + g)))))
    ensures (a + b + c + d + e + f + g)[..|a|] == a && (a + b + c + d + e + f + g)[|a|..] == b + (c + (d + (e + (f + g))))
  {
  }

  lemma ReadInOrder(r: Request, b: seq<string>, c: seq<string>, d: seq<string>, e: seq<string>)
    requires e == Given(r.fingerprint != "", "--expected-host-fingerprint", r.fingerprint) + [r.name, r.baseUrl]
    requires d == Given(r.knownHostsSecret != "oberth-known-hosts", "--known-hosts-secret", r.knownHostsSecret) + e
    requires c == Given(r.keySecret != "oberth-upstream-key", "--upstream-key-secret", r.keySecret) + d
    requires b == Given(r.namespace != r.defaultNamespace, "--namespace", r.namespace) + c
    ensures ReadArguments(Defaults(r.defaultNamespace), (if r.dedicatedKey then ["--dedicated-key"] else []) + b) == Some(r) <==>
            |r.name| < 2 || r.name[0] != '-'
  {
    hide ReadArguments, Given;
    var start := Defaults(r.defaultNamespace);
    var s1 := start.(dedicatedKey := r.dedicatedKey);
    var s2 := s1.(namespace := r.namespace);
    var s3 := s2.(keySecret := r.keySecret);
    var s4 := s3.(knownHostsSecret := r.knownHostsSecret);
    var s5 := s4.(fingerprint := r.fingerprint);
    ReadDedicated(start, r.dedicatedKey, b);
    ReadNamespace(s1, r.namespace, c);
    ReadKeySecret(s2, r.keySecret, d);
    ReadHostsSecret(s3, r.knownHostsSecret, e);
    ReadFingerprint(s4, r.fingerprint, [r.name, r.baseUrl]);
    ReadNames(s5, r.name, r.baseUrl);
    assert s5.(name := r.name, baseUrl := r.baseUrl) == r;
  }

  /** The command says what was asked: its arguments read back as the request, exactly if the name is no option. */
  lemma ArgumentsReadBack(r: Request)
    ensures |Arguments(r)| >= 3 && Arguments(r)[..3] == ["oberth", "upstream", "add"]
    ensures ReadArguments(Defaults(r.defaultNamespace), Arguments(r)[3..]) == Some(r) <==> |r.name| < 2 || r.name[0] != '-'
  {
    hide ReadArguments, Given;
    var e := Given(r.fingerprint != "", "--expected-host-fingerprint", r.fingerprint);
    var d := Given(r.knownHostsSecret != "oberth-known-hosts", "--known-hosts-secret", r.knownHostsSecret);
    var c := Given(r.keySecret != "oberth-upstream-key", "--upstream-key-secret", r.keySecret);
    var b := Given(r.namespace != r.defaultNamespace, "--namespace", r.namespace);
    var a := if r.dedicatedKey then ["--dedicated-key"] else [];
    var names := [r.name, r.baseUrl];
    Regroup(["oberth", "upstream", "add"], a, b, c, d, e, names);
    ReadInOrder(r, b + (c + (d + (e + names))), c + (d + (e + names)), d + (e + names), e + names);
  }
}
