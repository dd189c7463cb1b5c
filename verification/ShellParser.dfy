// Command lines of the build tool's shell: tokens, pipelines, and the parser between them.
module ShellParser {
  import opened Wrappers
  import opened Sequences

  /** Where one of a command's three streams goes. */
  datatype Stream = Inherited | PipeEnd | SameAsStdout | File(name: string)

  datatype Node =
    | Command(name: string, argv: seq<string>, stdin: Stream, stdout: Stream, stderr: Stream, env: map<string, string>)
    | Chdir(dir: Option<string>)
    | PipeOp
    | AndOp
    | OrOp

  datatype State = Begin | InCommand | InChdir | InStderr | InStdout | InStdin

  /** The parser's variables: state, command under construction, environment settings seen, and nodes committed. */
  datatype Parser = Parser(state: State, current: Option<Node>, env: map<string, string>, nodes: seq<Node>)

  const START := Parser(Begin, None, map[], [])

  const OPERATORS: set<string> := {">", "2>", "2>&1", "<", "|", "&&", "||"}

  // ----- environment settings: KEY=value

  predicate IsKeyChar(c: char) {
    'a' <= c <= 'z' || 'A' <= c <= 'Z' || '0' <= c <= '9' || c == '_'
  }

  predicate IsSpace(c: char) {
    '\t' <= c <= '\r' || '\U{1c}' <= c <= ' ' || c == '\U{85}' || c == '\U{a0}' || c == '\U{1680}'
    || '\U{2000}' <= c <= '\U{200a}' || c == '\U{2028}' || c == '\U{2029}' || c == '\U{202f}' || c == '\U{205f}' || c == '\U{3000}'
  }

  predicate IsKey(s: string) {
    s != "" && forall i :: 0 <= i < |s| ==> IsKeyChar(s[i])
  }

  predicate IsValue(s: string) {
    s != "" && forall i :: 0 <= i < |s| ==> !IsSpace(s[i])
  }

  /** The position of the first c in s, or |s|. */
  function FirstIndex(s: string, c: char): (i: nat)
    ensures i <= |s|
  {
    if s == "" || s[0] == c then 0 else 1 + FirstIndex(s[1..], c)
  }

  /** The pattern KEY=value; the dollar sign that ends it also matches just before a final newline. */
  function EnvVar(token: string): Option<(string, string)> {
    var i := FirstIndex(token, '=');
    if i == |token| || !IsKey(token[..i]) then None
    else
      var v := token[i + 1..];
      if IsValue(v) then Some((token[..i], v))
      else if v != "" && Last(v) == '\n' && IsValue(v[..|v| - 1]) then Some((token[..i], v[..|v| - 1]))
      else None
  }

  lemma EnvVarSound(token: string)
    ensures EnvVar(token).Some? ==> IsKey(EnvVar(token).value.0) && IsValue(EnvVar(token).value.1)
  {
  }

  lemma {:induction false} FirstIndexIs(s: string, c: char, k: nat)
    requires k < |s| && s[k] == c && forall i :: 0 <= i < k ==> s[i] != c
    ensures FirstIndex(s, c) == k
  {
    if k > 0 {
      FirstIndexIs(s[1..], c, k - 1);
    }
  }

  lemma EnvVarComplete(key: string, value: string)
    requires IsKey(key) && IsValue(value)
    ensures EnvVar(key + "=" + value) == Some((key, value))
  {
    var token := key + "=" + value;
    FirstIndexIs(token, '=', |key|);
    assert token[..|key|] == key && token[|key| + 1..] == value;
  }

  lemma {:induction false} FirstIndexBefore(s: string, c: char)
    ensures forall i :: 0 <= i < FirstIndex(s, c) ==> s[i] != c
    ensures FirstIndex(s, c) < |s| ==> s[FirstIndex(s, c)] == c
  {
    if s != "" && s[0] != c {
      FirstIndexBefore(s[1..], c);
      assert forall i :: 0 < i < FirstIndex(s, c) ==> s[i] == s[1..][i - 1];
    }
  }

  /** token is a key and a value with an equals sign between them, and at most one line break behind. */
  predicate IsSetting(token: string, key: string, value: string) {
    IsKey(key) && IsValue(value) && (token == key + "=" + value || token == key + "=" + value + "\n")
  }

  lemma SettingRead(token: string, key: string, value: string)
    requires IsSetting(token, key, value)
    ensures EnvVar(token) == Some((key, value))
  {
    FirstIndexIs(token, '=', |key|);
    assert token[..|key|] == key;
    if token == key + "=" + value {
      EnvVarComplete(key, value);
    } else {
      var v := token[|key| + 1..];
      assert v == value + "\n" && v[..|v| - 1] == value && IsSpace(v[|value|]);
    }
  }

  /** Nothing else is a setting: a value with a space in it makes the token a word. */
  lemma EnvVarIff(token: string, key: string, value: string)
    ensures EnvVar(token) == Some((key, value)) <==> IsSetting(token, key, value)
  {
    if IsSetting(token, key, value) {
      SettingRead(token, key, value);
    }
    if EnvVar(token) == Some((key, value)) {
      var i := FirstIndex(token, '=');
      FirstIndexBefore(token, '=');
      var v := token[i + 1..];
      assert token == token[..i] + "=" + v;
      if !IsValue(v) {
        assert v == v[..|v| - 1] + "\n";
      }
    }
  }

  // ----- the parser's step

  function Commit(p: Parser, op: Node): Parser
    requires p.current.Some?
  {
    Parser(Begin, None, p.env, p.nodes + [p.current.value, op])
  }

  predicate Consistent(p: Parser) {
    match p.state
    case Begin => p.current == None
    case InChdir => p.current.Some? && p.current.value.Chdir?
    case _ => p.current.Some? && p.current.value.Command?
  }

  /** What one token does; None where an assertion of the parser fails. */
  function Feed(p: Parser, token: string): (q: Option<Parser>)
    requires Consistent(p)
    ensures q.Some? ==> Consistent(q.value)
  {
    match p.state
    case Begin =>
      var setting := EnvVar(token);
      if setting.Some? then Some(p.(env := p.env[setting.value.0 := setting.value.1]))
      else if token == "cd" then
        if p.env != map[] then None else Some(p.(state := InChdir, current := Some(Chdir(None))))
      else
        Some(Parser(InCommand, Some(Command(token, [token], Inherited, Inherited, Inherited, p.env)), map[], p.nodes))
    case InCommand =>
      var c := p.current.value;
      if token == ">" then Some(p.(state := InStdout))
      else if token == "2>" then Some(p.(state := InStderr))
      else if token == "2>&1" then
        if c.stderr != Inherited then None else Some(p.(current := Some(c.(stderr := SameAsStdout))))
      else if token == "<" then Some(p.(state := InStdin))
      else if token == "|" then
        if c.stdout != Inherited then None else Some(Commit(p.(current := Some(c.(stdout := PipeEnd))), PipeOp))
      else if token == "&&" then Some(Commit(p, AndOp))
      else if token == "||" then Some(Commit(p, OrOp))
      else Some(p.(current := Some(c.(argv := c.argv + [token]))))
    case InChdir =>
      var c := p.current.value;
      if token == "&&" then Some(Commit(p, AndOp))
      else if c.dir.Some? then None
      else Some(p.(current := Some(Chdir(Some(token)))))
    case InStdout =>
      var c := p.current.value;
      if c.stdout != Inherited then None else Some(p.(state := InCommand, current := Some(c.(stdout := File(token)))))
    case InStderr =>
      var c := p.current.value;
      if c.stderr != Inherited then None else Some(p.(state := InCommand, current := Some(c.(stderr := File(token)))))
    case InStdin =>
      var c := p.current.value;
      if c.stdin != Inherited then None else Some(p.(state := InCommand, current := Some(c.(stdin := File(token)))))
  }

  function FeedAll(p: Parser, tokens: seq<string>): (q: Option<Parser>)
    requires Consistent(p)
    ensures q.Some? ==> Consistent(q.value)
    decreases |tokens|
  {
    if tokens == [] then Some(p)
    else
      var q := Feed(p, tokens[0]);
      if q.None? then None else FeedAll(q.value, tokens[1..])
  }

  /** The pipeline a token list stands for; None where the parser raises. */
  function Parse(tokens: seq<string>): Option<seq<Node>> {
    var p := FeedAll(START, tokens);
    if p.None? || p.value.current.None? then None else Some(p.value.nodes + [p.value.current.value])
  }

  lemma {:induction false} FeedConcat(p: Parser, a: seq<string>, b: seq<string>)
    requires Consistent(p)
    ensures FeedAll(p, a + b) == (var q := FeedAll(p, a); if q.None? then None else FeedAll(q.value, b))
    decreases |a|
  {
    if a == [] {
      assert a + b == b;
    } else {
      assert (a + b)[1..] == a[1..] + b;
      var q := Feed(p, a[0]);
      if q.Some? {
        FeedConcat(q.value, a[1..], b);
      }
    }
  }

  // ----- well-formed pipelines

  predicate IsCommand(n: Node) {
    && n.Command?
    && n.name != "cd" && EnvVar(n.name).None?
    && n.argv != [] && n.argv[0] == n.name
    && (forall k :: 1 <= k < |n.argv| ==> n.argv[k] !in OPERATORS)
    && (n.stdin.Inherited? || n.stdin.File?)
    && !n.stdout.SameAsStdout?
    && !n.stderr.PipeEnd?
    && forall key :: key in n.env ==> IsKey(key) && IsValue(n.env[key])
  }

  predicate IsChdir(n: Node) {
    n.Chdir? && n.dir != Some("&&")
  }

  predicate IsOperand(n: Node) {
    IsCommand(n) || IsChdir(n)
  }

  predicate WritesPipe(n: Node) {
    n.Command? && n.stdout == PipeEnd
  }

  /** op may follow n: commands before a pipe, and only those, write into it; a change of directory is followed by && only. */
  predicate Links(n: Node, op: Node) {
    match op
    case PipeOp => WritesPipe(n)
    case AndOp => n.Chdir? || (n.Command? && !WritesPipe(n))
    case OrOp => n.Command? && !WritesPipe(n)
    case _ => false
  }

  predicate Joined(n: Node, op: Node) {
    IsOperand(n) && Links(n, op)
  }

  predicate IsLast(n: Node) {
    IsOperand(n) && !WritesPipe(n)
  }

  /** Operands joined by operators, starting and ending with an operand. */
  predicate WellFormed(nodes: seq<Node>) {
    && |nodes| % 2 == 1
    && (forall k :: 0 <= k < |nodes| - 1 && k % 2 == 0 ==> Joined(nodes[k], nodes[k + 1]))
    && IsLast(Last(nodes))
  }

  /** A well-formed pipeline cut after an operator. */
  predicate WellFormedPrefix(nodes: seq<Node>) {
    && |nodes| % 2 == 0
    && (forall k :: 0 <= k < |nodes| - 1 && k % 2 == 0 ==> Joined(nodes[k], nodes[k + 1]))
  }

  /** Operands and operators alternate, starting and ending with an operand, each operator following an operand that suits it. */
  predicate Alternates(nodes: seq<Node>) {
    && |nodes| % 2 == 1
    && (forall k :: 0 <= k < |nodes| - 1 && k % 2 == 0 ==> Links(nodes[k], nodes[k + 1]))
    && (Last(nodes).Chdir? || (Last(nodes).Command? && !WritesPipe(Last(nodes))))
  }

  // ----- what the parser produces is well formed

  /** What holds of the parser between tokens. */
  predicate Parsing(p: Parser) {
    && Consistent(p)
    && WellFormedPrefix(p.nodes)
    && (forall key :: key in p.env ==> IsKey(key) && IsValue(p.env[key]))
    && (p.current.Some? ==> IsLast(p.current.value) && p.env == map[])
  }

  lemma PrefixGrows(nodes: seq<Node>, n: Node, op: Node)
    requires WellFormedPrefix(nodes) && Joined(n, op)
    ensures WellFormedPrefix(nodes + [n, op])
  {
    var more := nodes + [n, op];
    forall k | 0 <= k < |more| - 1 && k % 2 == 0 ensures Joined(more[k], more[k + 1]) {
      assert k < |nodes| - 1 || k == |nodes|;
    }
  }

  lemma FeedParsing(p: Parser, token: string, q: Parser)
    requires Parsing(p) && Feed(p, token) == Some(q)
    ensures Parsing(q)
  {
    if p.state == Begin {
      EnvVarSound(token);
    } else if q.state == Begin {
      var n, op := q.nodes[|p.nodes|], q.nodes[|p.nodes| + 1];
      assert q.nodes == p.nodes + [n, op];
      PrefixGrows(p.nodes, n, op);
    }
  }

  lemma {:induction false} FeedAllParsing(p: Parser, tokens: seq<string>)
    requires Parsing(p)
    ensures FeedAll(p, tokens).Some? ==> Parsing(FeedAll(p, tokens).value)
    decreases |tokens|
  {
    if tokens != [] {
      var q := Feed(p, tokens[0]);
      if q.Some? {
        FeedParsing(p, tokens[0], q.value);
        FeedAllParsing(q.value, tokens[1..]);
      }
    }
  }

  lemma ParsedIsWellFormed(tokens: seq<string>)
    ensures Parse(tokens).Some? ==> WellFormed(Parse(tokens).value)
  {
    FeedAllParsing(START, tokens);
  }

  lemma WellFormedAlternates(nodes: seq<Node>)
    requires WellFormed(nodes)
    ensures Alternates(nodes)
  {
    forall k | 0 <= k < |nodes| - 1 && k % 2 == 0 ensures Links(nodes[k], nodes[k + 1]) {
      assert Joined(nodes[k], nodes[k + 1]);
    }
  }

  // ----- and every well-formed pipeline is what its canonical tokens parse to

  ghost function PrintEnv(env: map<string, string>): seq<string>
    decreases env.Keys
  {
    if env == map[] then []
    else
      var key :| key in env;
      [key + "=" + env[key]] + PrintEnv(env - {key})
  }

  function Redirect(operator: string, s: Stream): seq<string> {
    match s
    case File(name) => [operator, name]
    case SameAsStdout => ["2>&1"]
    case _ => []
  }

  ghost function PrintNode(n: Node): seq<string> {
    match n
    case Command(_, argv, stdin, stdout, stderr, env) =>
      PrintEnv(env) + (argv + (Redirect("<", stdin) + (Redirect(">", stdout) + Redirect("2>", stderr))))
    case Chdir(dir) => ["cd"] + if dir.Some? then [dir.value] else []
    case PipeOp => ["|"]
    case AndOp => ["&&"]
    case OrOp => ["||"]
  }

  ghost function Print(nodes: seq<Node>): seq<string> {
    if nodes == [] then [] else Print(nodes[..|nodes| - 1]) + PrintNode(Last(nodes))
  }

  lemma {:induction false} FeedEnv(env: map<string, string>, p: Parser)
    requires p.state == Begin && Consistent(p)
    requires forall key :: key in env ==> IsKey(key) && IsValue(env[key])
    ensures FeedAll(p, PrintEnv(env)) == Some(p.(env := p.env + env))
    decreases env.Keys
  {
    if env == map[] {
      assert p.env + env == p.env;
    } else {
      var key :| key in env && PrintEnv(env) == [key + "=" + env[key]] + PrintEnv(env - {key});
      EnvVarComplete(key, env[key]);
      var q := p.(env := p.env[key := env[key]]);
      FeedEnv(env - {key}, q);
      assert q.env + (env - {key}) == p.env + env;
    }
  }

  lemma {:induction false} FeedArgs(p: Parser, args: seq<string>)
    requires p.state == InCommand && Consistent(p)
    requires forall k :: 0 <= k < |args| ==> args[k] !in OPERATORS
    ensures FeedAll(p, args) == Some(p.(current := Some(p.current.value.(argv := p.current.value.argv + args))))
    decreases |args|
  {
    if args == [] {
      assert p.current.value.argv + args == p.current.value.argv;
    } else {
      var q := p.(current := Some(p.current.value.(argv := p.current.value.argv + [args[0]])));
      assert args[0] !in OPERATORS;
      assert Feed(p, args[0]) == Some(q);
      FeedArgs(q, args[1..]);
      assert q.current.value.argv + args[1..] == p.current.value.argv + args;
    }
  }

  lemma FeedOne(p: Parser, a: string)
    requires Consistent(p)
    ensures FeedAll(p, [a]) == Feed(p, a)
  {
  }

  lemma FeedTwo(p: Parser, a: string, b: string)
    requires Consistent(p) && Feed(p, a).Some?
    ensures FeedAll(p, [a, b]) == Feed(Feed(p, a).value, b)
  {
    assert [a, b][1..] == [b];
    FeedOne(Feed(p, a).value, b);
  }

  /** A redirection fills its slot and returns to the command. */
  lemma FeedRedirect(p: Parser, operator: string, s: Stream, c: Node)
    requires p.state == InCommand && Consistent(p) && p.current == Some(c)
    requires match operator
             case "<" => c.stdin == Inherited && !s.SameAsStdout?
             case ">" => c.stdout == Inherited && !s.SameAsStdout?
             case "2>" => c.stderr == Inherited
             case _ => false
    ensures var t := if s == PipeEnd then Inherited else s;
            FeedAll(p, Redirect(operator, s)) == Some(p.(current := Some(
              if operator == "<" then c.(stdin := t) else if operator == ">" then c.(stdout := t) else c.(stderr := t))))
  {
    match s
    case File(name) => FeedTwo(p, operator, name);
    case SameAsStdout => FeedOne(p, "2>&1");
    case _ =>
  }

  /** A command as it stands before a pipe operator is read. */
  function Unpiped(n: Node): Node {
    if n.Command? && n.stdout == PipeEnd then n.(stdout := Inherited) else n
  }

  lemma FeedRedirects(p: Parser, n: Node)
    requires p.state == InCommand && Consistent(p)
    requires IsCommand(n)
    requires p.current == Some(n.(stdin := Inherited, stdout := Inherited, stderr := Inherited))
    ensures FeedAll(p, Redirect("<", n.stdin) + (Redirect(">", n.stdout) + Redirect("2>", n.stderr))) == Some(p.(current := Some(Unpiped(n))))
  {
    var p1 := p.(current := Some(p.current.value.(stdin := n.stdin)));
    var p2 := p.(current := Some(p1.current.value.(stdout := Unpiped(n).stdout)));
    FeedRedirect(p, "<", n.stdin, p.current.value);
    FeedRedirect(p1, ">", n.stdout, p1.current.value);
    FeedRedirect(p2, "2>", n.stderr, p2.current.value);
    FeedConcat(p, Redirect("<", n.stdin), Redirect(">", n.stdout) + Redirect("2>", n.stderr));
    FeedConcat(p1, Redirect(">", n.stdout), Redirect("2>", n.stderr));
  }

  lemma FeedCommand(p: Parser, n: Node)
    requires p.state == Begin && p.current == None && p.env == map[]
    requires IsCommand(n)
    ensures FeedAll(p, PrintNode(n)) == Some(p.(state := InCommand, current := Some(Unpiped(n))))
  {
    var rest := Redirect("<", n.stdin) + (Redirect(">", n.stdout) + Redirect("2>", n.stderr));
    FeedConcat(p, PrintEnv(n.env), n.argv + rest);
    FeedEnv(n.env, p);
    var p1 := p.(env := p.env + n.env);
    assert p1.env == n.env;
    FeedConcat(p1, n.argv, rest);
    var p2 := p.(state := InCommand, current := Some(Command(n.name, [n.name], Inherited, Inherited, Inherited, n.env)));
    assert Feed(p1, n.argv[0]) == Some(p2);
    FeedArgs(p2, n.argv[1..]);
    assert [n.name] + n.argv[1..] == n.argv;
    var p3 := p2.(current := Some(n.(stdin := Inherited, stdout := Inherited, stderr := Inherited)));
    FeedRedirects(p3, n);
  }

  lemma FeedLast(p: Parser, n: Node)
    requires p.state == Begin && p.current == None && p.env == map[]
    requires IsLast(n) || IsCommand(n)
    ensures FeedAll(p, PrintNode(n)) == Some(p.(state := if n.Chdir? then InChdir else InCommand, current := Some(Unpiped(n))))
  {
    if IsCommand(n) {
      FeedCommand(p, n);
    } else {
      assert EnvVar("cd").None?;
      var q := p.(state := InChdir, current := Some(Chdir(None)));
      assert Feed(p, "cd") == Some(q);
      if n.dir.Some? {
        FeedTwo(p, "cd", n.dir.value);
      } else {
        FeedOne(p, "cd");
      }
    }
  }

  lemma FeedPair(p: Parser, n: Node, op: Node)
    requires p.state == Begin && p.current == None && p.env == map[]
    requires Joined(n, op)
    ensures FeedAll(p, PrintNode(n) + PrintNode(op)) == Some(p.(nodes := p.nodes + [n, op]))
  {
    var q := p.(state := if n.Chdir? then InChdir else InCommand, current := Some(Unpiped(n)));
    FeedConcat(p, PrintNode(n), PrintNode(op));
    FeedLast(p, n);
    FeedOne(q, PrintNode(op)[0]);
  }

  lemma PrintPair(front: seq<Node>, n: Node, op: Node)
    ensures Print(front + [n, op]) == Print(front) + (PrintNode(n) + PrintNode(op))
  {
    var nodes := front + [n, op];
    assert nodes[..|nodes| - 1] == front + [n] && (front + [n])[..|front|] == front;
  }

  lemma {:induction false} FeedPrefix(nodes: seq<Node>)
    requires WellFormedPrefix(nodes)
    ensures FeedAll(START, Print(nodes)) == Some(START.(nodes := nodes))
    decreases |nodes|
  {
    if nodes != [] {
      var front, n, op := nodes[..|nodes| - 2], nodes[|nodes| - 2], nodes[|nodes| - 1];
      assert nodes == front + [n, op];
      assert Joined(n, op);
      FeedPrefix(front);
      PrintPair(front, n, op);
      FeedConcat(START, Print(front), PrintNode(n) + PrintNode(op));
      FeedPair(START.(nodes := front), n, op);
    }
  }

  lemma AllButLast(nodes: seq<Node>)
    requires WellFormed(nodes)
    ensures WellFormedPrefix(nodes[..|nodes| - 1])
  {
    forall k | 0 <= k < |nodes| - 2 && k % 2 == 0 ensures Joined(nodes[..|nodes| - 1][k], nodes[..|nodes| - 1][k + 1]) {
      assert Joined(nodes[k], nodes[k + 1]);
    }
  }

  /** Parsing undoes printing, on exactly the pipelines that parsing can produce. */
  lemma ParsePrint(nodes: seq<Node>)
    requires WellFormed(nodes)
    ensures Parse(Print(nodes)) == Some(nodes)
  {
    var front, n := nodes[..|nodes| - 1], Last(nodes);
    AllButLast(nodes);
    FeedPrefix(front);
    FeedConcat(START, Print(front), PrintNode(n));
    FeedLast(START.(nodes := front), n);
    assert front + [n] == nodes;
  }

  lemma WellFormedIffParsed(nodes: seq<Node>)
    ensures WellFormed(nodes) <==> exists tokens :: Parse(tokens) == Some(nodes)
  {
    if WellFormed(nodes) {
      ParsePrint(nodes);
    }
    if tokens :| Parse(tokens) == Some(nodes) {
      ParsedIsWellFormed(tokens);
    }
  }

  // ----- what the order of tokens means, well-formed or not

  predicate IsRedirection(operator: string) {
    operator in {"<", ">", "2>"}
  }

  /** What a redirection does, and when it fails: a command's stream is redirected once. */
  lemma RedirectionFills(p: Parser, operator: string, file: string)
    requires Consistent(p) && p.state == InCommand && IsRedirection(operator)
    ensures var c := p.current.value;
            FeedAll(p, [operator, file]) ==
            if operator == "<" && c.stdin == Inherited then Some(p.(current := Some(c.(stdin := File(file)))))
            else if operator == ">" && c.stdout == Inherited then Some(p.(current := Some(c.(stdout := File(file)))))
            else if operator == "2>" && c.stderr == Inherited then Some(p.(current := Some(c.(stderr := File(file)))))
            else None
  {
    FeedTwo(p, operator, file);
  }

  /** A redirection may stand anywhere among a command's words. */
  lemma RedirectionAnywhere(p: Parser, operator: string, file: string, word: string)
    requires Consistent(p) && p.state == InCommand && IsRedirection(operator) && word !in OPERATORS
    ensures FeedAll(p, [operator, file] + [word]) == FeedAll(p, [word] + [operator, file])
  {
    var q, r := FeedAll(p, [operator, file]), Feed(p, word);
    FeedConcat(p, [operator, file], [word]);
    FeedConcat(p, [word], [operator, file]);
    FeedOne(p, word);
    RedirectionFills(p, operator, file);
    RedirectionFills(r.value, operator, file);
    if q.Some? {
      FeedOne(q.value, word);
    }
  }

  lemma MergeAnywhere(p: Parser, word: string)
    requires Consistent(p) && p.state == InCommand && word !in OPERATORS
    ensures FeedAll(p, ["2>&1"] + [word]) == FeedAll(p, [word] + ["2>&1"])
  {
    var q, r := Feed(p, "2>&1"), Feed(p, word);
    FeedConcat(p, ["2>&1"], [word]);
    FeedConcat(p, [word], ["2>&1"]);
    FeedOne(p, "2>&1");
    FeedOne(p, word);
    FeedOne(r.value, "2>&1");
    if q.Some? {
      FeedOne(q.value, word);
    }
  }

  /** Redirections of different streams may be swapped. */
  lemma RedirectionsSwap(p: Parser, a: string, f: string, b: string, g: string)
    requires Consistent(p) && p.state == InCommand && IsRedirection(a) && IsRedirection(b) && a != b
    ensures FeedAll(p, [a, f] + [b, g]) == FeedAll(p, [b, g] + [a, f])
  {
    FeedConcat(p, [a, f], [b, g]);
    FeedConcat(p, [b, g], [a, f]);
    RedirectionFills(p, a, f);
    RedirectionFills(p, b, g);
    var q, r := FeedAll(p, [a, f]), FeedAll(p, [b, g]);
    if q.Some? {
      RedirectionFills(q.value, b, g);
    }
    if r.Some? {
      RedirectionFills(r.value, a, f);
    }
  }

  /** Redirecting a stream twice fails, whatever the files; so does a pipe behind a redirected output. */
  lemma RedirectedTwice(p: Parser, operator: string, f: string, g: string)
    requires Consistent(p) && p.state == InCommand && IsRedirection(operator)
    ensures FeedAll(p, [operator, f] + [operator, g]) == None
    ensures operator == ">" ==> FeedAll(p, [operator, f] + ["|"]) == None
    ensures operator == "2>" ==> FeedAll(p, [operator, f] + ["2>&1"]) == None && FeedAll(p, ["2>&1"] + [operator, f]) == None
  {
    FeedConcat(p, [operator, f], [operator, g]);
    FeedConcat(p, [operator, f], ["|"]);
    FeedConcat(p, [operator, f], ["2>&1"]);
    FeedConcat(p, ["2>&1"], [operator, f]);
    RedirectionFills(p, operator, f);
    FeedOne(p, "2>&1");
    var q, r := FeedAll(p, [operator, f]), FeedAll(p, ["2>&1"]);
    if q.Some? {
      RedirectionFills(q.value, operator, g);
      FeedOne(q.value, "|");
      FeedOne(q.value, "2>&1");
    }
    if r.Some? {
      RedirectionFills(r.value, operator, f);
    }
  }

  /** A redirection that names no file at the end of the line is forgotten. */
  lemma Dangling(tokens: seq<string>, operator: string)
    requires FeedAll(START, tokens).Some? && FeedAll(START, tokens).value.state == InCommand && IsRedirection(operator)
    ensures Parse(tokens + [operator]) == Parse(tokens) && Parse(tokens).Some?
  {
    var p := FeedAll(START, tokens).value;
    FeedConcat(START, tokens, [operator]);
    FeedOne(p, operator);
  }

  /** A later setting of the same key replaces an earlier one; a change of directory takes none, and one directory. */
  lemma SettingsAndChdirs(p: Parser, key: string, a: string, b: string, dir: string, other: string)
    requires Consistent(p) && p.state == Begin && IsKey(key) && IsValue(a) && IsValue(b)
    requires dir != "&&" && other != "&&"
    ensures FeedAll(p, [key + "=" + a, key + "=" + b]) == FeedAll(p, [key + "=" + b])
    ensures FeedAll(p, [key + "=" + a, "cd"]) == None
    ensures FeedAll(p, ["cd"] + [dir, other]) == None
  {
    EnvVarComplete(key, a);
    EnvVarComplete(key, b);
    assert EnvVar("cd").None?;
    FeedTwo(p, key + "=" + a, key + "=" + b);
    FeedTwo(p, key + "=" + a, "cd");
    FeedOne(p, key + "=" + b);
    FeedConcat(p, ["cd"], [dir, other]);
    FeedOne(p, "cd");
    if Feed(p, "cd").Some? {
      FeedTwo(Feed(p, "cd").value, dir, other);
    }
    assert key in p.env[key := a];
    assert p.env[key := a][key := b] == p.env[key := b];
  }
}
