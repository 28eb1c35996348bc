/** The scanners of `scripts/git-policy.ts`: which subcommand a git command line runs, and where. */
module GitPolicy {
  import Text
  import opened Wrappers

  datatype GitCommandInfo = GitCommandInfo(name: string, index: nat)
  datatype GitInvocation = GitInvocation(index: nat, argv: seq<string>)
  datatype GitExecutionContext = GitExecutionContext(
    invocation: Option<GitInvocation>, command: Option<GitCommandInfo>, workDir: string)

  predicate StartsWith(text: string, prefix: string) {
    prefix <= text
  }

  predicate TakesValue(token: string) {
    token == "-C" || token == "--git-dir" || token == "--work-tree" || token == "-c"
  }

  // ----- The loops, and the functions they compute -----

  function SubcommandFrom(args: seq<string>, index: nat): (r: Option<GitCommandInfo>)
    ensures r.Some? ==> index <= r.value.index < |args| && r.value.name == args[r.value.index]
    decreases |args| - index
  {
    if index >= |args| then None
    else if args[index] == "--" then
      if index + 1 < |args| && args[index + 1] != "" then Some(GitCommandInfo(args[index + 1], index + 1)) else None
    else if !StartsWith(args[index], "-") then Some(GitCommandInfo(args[index], index))
    else if '=' in args[index] then SubcommandFrom(args, index + 1)
    else if TakesValue(args[index]) then SubcommandFrom(args, index + 2)
    else SubcommandFrom(args, index + 1)
  }

  method FindGitSubcommand(commandArgs: seq<string>) returns (command: Option<GitCommandInfo>)
    ensures command == SubcommandFrom(commandArgs, 1)
    ensures command.Some? ==>
      1 <= command.value.index < |commandArgs| && command.value.name == commandArgs[command.value.index]
  {
    if |commandArgs| <= 1 {
      return None;
    }
    var index := 1;
    while index < |commandArgs|
      invariant index >= 1
      invariant SubcommandFrom(commandArgs, index) == SubcommandFrom(commandArgs, 1)
    {
      var token := commandArgs[index];
      if token == "--" {
        if index + 1 < |commandArgs| && commandArgs[index + 1] != "" {
          return Some(GitCommandInfo(commandArgs[index + 1], index + 1));
        }
        return None;
      }
      if !StartsWith(token, "-") {
        return Some(GitCommandInfo(token, index));
      }
      if '=' in token {
        index := index + 1;
        continue;
      }
      if TakesValue(token) {
        index := index + 2;
        continue;
      }
      index := index + 1;
    }
    return None;
  }

  /** The scan for `-C`; `resolve` is `path.resolve`. */
  function WorkdirFrom(resolve: (string, string) -> string, args: seq<string>, limit: nat, index: nat,
                       dir: string): string
    decreases limit - index
  {
    if index >= limit || index >= |args| then dir
    else if args[index] == "-C" then
      var next := if index + 1 < |args| then args[index + 1] else "";
      WorkdirFrom(resolve, args, limit, index + 2, if next != "" then resolve(dir, next) else dir)
    else if StartsWith(args[index], "-C") && |args[index]| > 2 then
      WorkdirFrom(resolve, args, limit, index + 1, resolve(dir, args[index][2..]))
    else WorkdirFrom(resolve, args, limit, index + 1, dir)
  }

  method DetermineGitWorkdir(resolve: (string, string) -> string, baseDir: string, gitArgs: seq<string>,
                             command: Option<GitCommandInfo>)
    returns (workDir: string)
    ensures workDir ==
      WorkdirFrom(resolve, gitArgs, if command.Some? then command.value.index else |gitArgs|, 1, baseDir)
  {
    workDir := baseDir;
    var limit := if command.Some? then command.value.index else |gitArgs|;
    var index := 1;
    while index < limit
      invariant WorkdirFrom(resolve, gitArgs, limit, index, workDir) == WorkdirFrom(resolve, gitArgs, limit, 1, baseDir)
    {
      if index >= |gitArgs| {
        break;
      }
      var token := gitArgs[index];
      if token == "-C" {
        var next := if index + 1 < |gitArgs| then gitArgs[index + 1] else "";
        if next != "" {
          workDir := resolve(workDir, next);
        }
        index := index + 2;
        continue;
      }
      if StartsWith(token, "-C") {
        var pathSegment := token[2..];
        if |pathSegment| > 0 {
          workDir := resolve(workDir, pathSegment);
        }
      }
      index := index + 1;
    }
  }

  predicate IsGit(token: string) {
    token == "git" || Text.EndsWith(token, "/git")
  }

  method ExtractGitInvocation(commandArgs: seq<string>) returns (invocation: Option<GitInvocation>)
    ensures invocation.None? ==> forall i | 0 <= i < |commandArgs| :: !IsGit(commandArgs[i])
    ensures invocation.Some? ==>
      var first := invocation.value.index;
      && first < |commandArgs| && IsGit(commandArgs[first])
      && (forall i | 0 <= i < first :: !IsGit(commandArgs[i]))
      && invocation.value.argv == commandArgs[first..]
  {
    for index := 0 to |commandArgs|
      invariant forall i | 0 <= i < index :: !IsGit(commandArgs[i])
    {
      if IsGit(commandArgs[index]) {
        return Some(GitInvocation(index, commandArgs[index..]));
      }
    }
    return None;
  }

  method AnalyzeGitExecution(resolve: (string, string) -> string, commandArgs: seq<string>, workspaceDir: string)
    returns (context: GitExecutionContext)
    ensures context.invocation.None? <==> forall i | 0 <= i < |commandArgs| :: !IsGit(commandArgs[i])
    ensures context.invocation.None? ==> context.command.None? && context.workDir == workspaceDir
    ensures context.invocation.Some? ==>
      var argv := context.invocation.value.argv;
      && context.invocation.value.index < |commandArgs| && argv == commandArgs[context.invocation.value.index..]
      && context.command == SubcommandFrom(argv, 1)
      && (context.command.Some? ==> context.command.value.index <= |argv|)
      && context.workDir
         == WorkdirFrom(resolve, argv, if context.command.Some? then context.command.value.index else |argv|, 1,
                        workspaceDir)
  {
    var invocation := ExtractGitInvocation(commandArgs);
    if invocation.None? {
      return GitExecutionContext(None, None, workspaceDir);
    }
    var command := FindGitSubcommand(invocation.value.argv);
    var workDir := DetermineGitWorkdir(resolve, workspaceDir, invocation.value.argv, command);
    return GitExecutionContext(invocation, command, workDir);
  }

  // ----- Command lines as git users write them -----

  datatype GlobalOption =
    | Separate(name: string, value: string)   // `--git-dir PATH`
    | Joined(token: string)                   // `--git-dir=PATH`
    | Flag(token: string)                     // `--no-pager`
  {
    predicate Valid() {
      match this
      case Separate(name, _) => TakesValue(name)
      case Joined(token) => StartsWith(token, "-") && '=' in token
      case Flag(token) => StartsWith(token, "-") && '=' !in token && !TakesValue(token) && token != "--"
    }

    function Tokens(): seq<string> {
      match this
      case Separate(name, value) => [name, value]
      case Joined(token) => [token]
      case Flag(token) => [token]
    }

    /** The directories that this option names, `-Cpath` included. */
    function Directories(): seq<string> {
      match this
      case Separate(name, value) => if name == "-C" && value != "" then [value] else []
      case Joined(token) => if StartsWith(token, "-C") then [token[2..]] else []
      case Flag(token) => if StartsWith(token, "-C") then [token[2..]] else []
    }

    /** The scan for `-C` looks into the values of the other options too. */
    predicate Misread() {
      Separate? && name != "-C" && StartsWith(value, "-C")
    }
  }

  ghost predicate AllValid(options: seq<GlobalOption>) {
    forall o | o in options :: o.Valid()
  }

  function Rendered(options: seq<GlobalOption>): seq<string> {
    if options == [] then [] else options[0].Tokens() + Rendered(options[1..])
  }

  function AllDirectories(options: seq<GlobalOption>): seq<string> {
    if options == [] then [] else options[0].Directories() + AllDirectories(options[1..])
  }

  function Fold(resolve: (string, string) -> string, dir: string, parts: seq<string>): string
    decreases parts
  {
    if parts == [] then dir else Fold(resolve, resolve(dir, parts[0]), parts[1..])
  }

  /** `part` stands in `args` at `index`. */
  predicate StandsAt(args: seq<string>, index: nat, part: seq<string>) {
    index + |part| <= |args| && args[index..index + |part|] == part
  }

  lemma StandsInOrder(args: seq<string>, index: nat, first: seq<string>, second: seq<string>)
    requires StandsAt(args, index, first + second)
    ensures StandsAt(args, index, first) && StandsAt(args, index + |first|, second)
  {
    var whole := args[index..index + |first + second|];
    assert args[index..index + |first|] == whole[..|first|];
    assert args[index + |first|..index + |first| + |second|] == whole[|first|..];
  }

  lemma {:induction false} ScanSkipsOption(args: seq<string>, index: nat, o: GlobalOption)
    requires o.Valid() && StandsAt(args, index, o.Tokens())
    ensures SubcommandFrom(args, index) == SubcommandFrom(args, index + |o.Tokens()|)
  {
    assert args[index] == args[index..index + |o.Tokens()|][0];
  }

  lemma {:induction false} ScanSkipsOptions(args: seq<string>, index: nat, options: seq<GlobalOption>)
    requires AllValid(options) && StandsAt(args, index, Rendered(options))
    ensures SubcommandFrom(args, index) == SubcommandFrom(args, index + |Rendered(options)|)
    decreases options
  {
    if options != [] {
      var o, tail := options[0], options[1..];
      StandsInOrder(args, index, o.Tokens(), Rendered(tail));
      assert o.Valid();
      ScanSkipsOption(args, index, o);
      ScanSkipsOptions(args, index + |o.Tokens()|, tail);
    }
  }

  lemma OptionsStand(git: string, options: seq<GlobalOption>, rest: seq<string>)
    ensures StandsAt([git] + Rendered(options) + rest, 1, Rendered(options))
    ensures forall i | 0 <= i < |rest| :: ([git] + Rendered(options) + rest)[1 + |Rendered(options)| + i] == rest[i]
  {
    var args := [git] + Rendered(options) + rest;
    assert args[1..1 + |Rendered(options)|] == Rendered(options);
  }

  /** Behind any list of global options, the subcommand is found where it stands. */
  lemma {:induction false} SubcommandRoundTrip(git: string, options: seq<GlobalOption>, subcommand: string,
                                               trailing: seq<string>)
    requires AllValid(options) && !StartsWith(subcommand, "-")
    ensures SubcommandFrom([git] + Rendered(options) + ([subcommand] + trailing), 1)
            == Some(GitCommandInfo(subcommand, 1 + |Rendered(options)|))
  {
    var rest := [subcommand] + trailing;
    OptionsStand(git, options, rest);
    ScanSkipsOptions([git] + Rendered(options) + rest, 1, options);
    assert rest[0] == subcommand;
    assert ([git] + Rendered(options) + rest)[1 + |Rendered(options)| + 0] == subcommand;
  }

  /** The four options that take the next word along. */
  lemma OptionsWithValue(option: string, value: string, subcommand: string, trailing: seq<string>)
    requires option == "-C" || option == "-c" || option == "--git-dir" || option == "--work-tree"
    requires !StartsWith(subcommand, "-")
    ensures SubcommandFrom(["git", option, value, subcommand] + trailing, 1) == Some(GitCommandInfo(subcommand, 3))
  {
    var args := ["git", option, value, subcommand] + trailing;
    assert args[1] == option && args[3] == subcommand;
    assert option[0] == '-' && "-"[0] == '-' && option != "--" && '=' !in option;
    assert SubcommandFrom(args, 3) == Some(GitCommandInfo(subcommand, 3));
  }

  /** Any other option stands alone. */
  lemma OptionsWithoutValue(option: string, subcommand: string, trailing: seq<string>)
    requires StartsWith(option, "-") && option !in {"--", "-C", "-c", "--git-dir", "--work-tree"}
    requires !StartsWith(subcommand, "-")
    ensures SubcommandFrom(["git", option, subcommand] + trailing, 1) == Some(GitCommandInfo(subcommand, 2))
  {
    var args := ["git", option, subcommand] + trailing;
    assert args[1] == option && args[2] == subcommand;
    assert SubcommandFrom(args, 2) == Some(GitCommandInfo(subcommand, 2));
  }

  /** Which words name git: `git` itself, and what ends in `/git`. */
  lemma NamesGit(word: string)
    ensures IsGit(word) <==> word == "git" || (|word| >= 4 && word[|word| - 4..] == "/git")
  {
  }

  /** After `--` the next word is the subcommand, whatever it looks like. */
  lemma {:induction false} SubcommandAfterDashes(git: string, options: seq<GlobalOption>, subcommand: string,
                                                 trailing: seq<string>)
    requires AllValid(options) && subcommand != ""
    ensures SubcommandFrom([git] + Rendered(options) + (["--", subcommand] + trailing), 1)
            == Some(GitCommandInfo(subcommand, 2 + |Rendered(options)|))
  {
    var rest := ["--", subcommand] + trailing;
    OptionsStand(git, options, rest);
    ScanSkipsOptions([git] + Rendered(options) + rest, 1, options);
    assert rest[0] == "--" && rest[1] == subcommand;
    assert ([git] + Rendered(options) + rest)[1 + |Rendered(options)| + 0] == "--";
    assert ([git] + Rendered(options) + rest)[1 + |Rendered(options)| + 1] == subcommand;
  }

  lemma {:induction false} FoldConcat(resolve: (string, string) -> string, dir: string, a: seq<string>, b: seq<string>)
    ensures Fold(resolve, dir, a + b) == Fold(resolve, Fold(resolve, dir, a), b)
    decreases a
  {
    if a == [] {
      assert a + b == b;
    } else {
      assert (a + b)[1..] == a[1..] + b;
      FoldConcat(resolve, resolve(dir, a[0]), a[1..], b);
    }
  }

  // ----- What the scan for `-C` takes for directories -----

  /** The directories that the scan resolves, one after the other; `after` is the word behind the scanned
      ones, which a last `-C` still takes. */
  function Scanned(tokens: seq<string>, after: string): seq<string> {
    if tokens == [] then []
    else if tokens[0] == "-C" then Shifted(tokens[1..], after)
    else if StartsWith(tokens[0], "-C") then [tokens[0][2..]] + Scanned(tokens[1..], after)
    else Scanned(tokens[1..], after)
  }

  /** The same behind a word `-C`: the next word is a directory, unless it is empty. */
  function Shifted(tokens: seq<string>, after: string): seq<string> {
    if tokens == [] then NonEmpty(after) else NonEmpty(tokens[0]) + Scanned(tokens[1..], after)
  }

  function NonEmpty(word: string): seq<string> {
    if word == "" then [] else [word]
  }

  lemma {:induction false} ScanResolves(resolve: (string, string) -> string, args: seq<string>, limit: nat, index: nat,
                                        dir: string)
    requires index <= limit <= |args|
    ensures WorkdirFrom(resolve, args, limit, index, dir)
            == Fold(resolve, dir, Scanned(args[index..limit], if limit < |args| then args[limit] else ""))
    decreases limit - index
  {
    var tokens, after := args[index..limit], if limit < |args| then args[limit] else "";
    if index < limit {
      assert tokens[0] == args[index] && tokens[1..] == args[index + 1..limit];
      if tokens[0] == "-C" {
        var next := if index + 1 < |args| then args[index + 1] else "";
        FoldConcat(resolve, dir, NonEmpty(next),
                   Scanned(args[if index + 2 <= limit then index + 2 else limit..limit], after));
        FoldOne(resolve, dir, next);
        if index + 1 < limit {
          assert tokens[1..][0] == args[index + 1] && tokens[1..][1..] == args[index + 2..limit];
          ScanResolves(resolve, args, limit, index + 2, if next != "" then resolve(dir, next) else dir);
        } else {
          assert NonEmpty(next) + [] == NonEmpty(next);
        }
      } else if StartsWith(tokens[0], "-C") {
        ScanResolves(resolve, args, limit, index + 1, resolve(dir, tokens[0][2..]));
      } else {
        ScanResolves(resolve, args, limit, index + 1, dir);
      }
    }
  }

  lemma FoldOne(resolve: (string, string) -> string, dir: string, word: string)
    ensures Fold(resolve, dir, NonEmpty(word)) == if word != "" then resolve(dir, word) else dir
  {
    assert word != "" ==> [word][1..] == [];
  }

  /** How the scan crosses one option. */
  lemma ScanOption(o: GlobalOption, rest: seq<string>, after: string)
    requires o.Valid()
    ensures Scanned(o.Tokens() + rest, after)
            == if o.Separate? && o.name == "-C" then NonEmpty(o.value) + Scanned(rest, after)
               else if o.Separate? then Scanned([o.value] + rest, after)
               else o.Directories() + Scanned(rest, after)
  {
    var tokens := o.Tokens() + rest;
    assert tokens[0] == o.Tokens()[0];
    match o {
      case Separate(name, value) =>
        assert tokens[1..] == [value] + rest;
        assert ([value] + rest)[1..] == rest;
        assert name != "-C" ==> name[1] != 'C';
        assert StartsWith(name, "-C") ==> name[1] == "-C"[1];
      case Joined(token) =>
        assert tokens[1..] == rest;
        assert token != "-C";
      case Flag(token) =>
        assert tokens[1..] == rest;
    }
  }

  /** How it crosses a value that it looks into. */
  lemma ScanValue(value: string, rest: seq<string>, after: string)
    ensures Scanned([value] + rest, after)
            == if value == "-C" then Shifted(rest, after)
               else if StartsWith(value, "-C") then [value[2..]] + Scanned(rest, after)
               else Scanned(rest, after)
  {
    assert ([value] + rest)[1..] == rest;
  }

  /** How it crosses one option when the word before was a value `-C`. */
  lemma ShiftOption(o: GlobalOption, rest: seq<string>, after: string)
    requires o.Valid()
    ensures Shifted(o.Tokens() + rest, after)
            == [o.Tokens()[0]] + Scanned((if o.Separate? then [o.value] else []) + rest, after)
  {
    var tokens := o.Tokens() + rest;
    assert tokens[0] == o.Tokens()[0] != "";
    assert tokens[1..] == (if o.Separate? then [o.value] else []) + rest;
  }

  /** Looking into values never loses a directory. */
  lemma {:induction false} ScanFindsEnough(options: seq<GlobalOption>, after: string)
    requires AllValid(options)
    ensures |Scanned(Rendered(options), after)| >= |AllDirectories(options)|
    ensures |Shifted(Rendered(options), after)| >= |AllDirectories(options)|
    decreases options
  {
    if options != [] {
      var o, rest := options[0], Rendered(options[1..]);
      ScanFindsEnough(options[1..], after);
      ScanOption(o, rest, after);
      ShiftOption(o, rest, after);
      if o.Separate? {
        ScanValue(o.value, rest, after);
      } else {
        assert [] + rest == rest;
      }
    }
  }

  /** Options that read the same one word later. */
  predicate OnlyDashC(options: seq<GlobalOption>) {
    options == [] || (options[0] == Separate("-C", "-C") && OnlyDashC(options[1..]))
  }

  lemma {:induction false} ShiftedExactlyWhen(options: seq<GlobalOption>, after: string)
    requires AllValid(options)
    ensures Shifted(Rendered(options), after) == AllDirectories(options) <==> after == "" && OnlyDashC(options)
    decreases options
  {
    if options != [] {
      var o, rest, all := options[0], Rendered(options[1..]), AllDirectories(options[1..]);
      ShiftedExactlyWhen(options[1..], after);
      ScanFindsEnough(options[1..], after);
      ShiftOption(o, rest, after);
      if o.Separate? {
        ScanValue(o.value, rest, after);
        if o.name == "-C" && o.value != "" {
          HeadsDiffer(o.name, Scanned([o.value] + rest, after), o.value, all);
        }
      } else {
        assert [] + rest == rest;
        if StartsWith(o.token, "-C") {
          HeadsDiffer(o.token, Scanned(rest, after), o.token[2..], all);
        }
      }
    }
  }

  lemma HeadsDiffer(a: string, first: seq<string>, b: string, second: seq<string>)
    ensures [a] + first == [b] + second <==> a == b && first == second
  {
    assert ([a] + first)[0] == a && ([a] + first)[1..] == first;
    assert ([b] + second)[0] == b && ([b] + second)[1..] == second;
  }

  /** The first value that is misread is `-C` itself, and nothing but `-C -C` follows. */
  predicate EndsShifted(options: seq<GlobalOption>) {
    && options != []
    && if options[0].Misread() then options[0].value == "-C" && OnlyDashC(options[1..]) else EndsShifted(options[1..])
  }

  ghost predicate AnyMisread(options: seq<GlobalOption>) {
    exists o | o in options :: o.Misread()
  }

  /** The scan finds the directories that the options name if and only if it misreads none of their values;
      the one exception are misread values before an empty word. */
  lemma {:induction false} ScannedExactlyWhen(options: seq<GlobalOption>, after: string)
    requires AllValid(options)
    ensures Scanned(Rendered(options), after) == AllDirectories(options)
            <==> !AnyMisread(options) || (after == "" && EndsShifted(options))
    decreases options
  {
    if options != [] {
      var o, rest, all := options[0], Rendered(options[1..]), AllDirectories(options[1..]);
      ScannedExactlyWhen(options[1..], after);
      ShiftedExactlyWhen(options[1..], after);
      ScanFindsEnough(options[1..], after);
      ScanOption(o, rest, after);
      assert AnyMisread(options) <==> o.Misread() || AnyMisread(options[1..]) by {
        assert options == [o] + options[1..];
      }
      if o.Separate? {
        ScanValue(o.value, rest, after);
      }
      SameHead(o.Directories(), Scanned(rest, after), all);
      assert [] + all == all;
    }
  }

  lemma SameHead<T>(head: seq<T>, first: seq<T>, second: seq<T>)
    ensures head + first == head + second <==> first == second
  {
    assert (head + first)[|head|..] == first && (head + second)[|head|..] == second;
  }

  /** The working directory is the fold of path resolution over what the scan finds, and that is what the
      options name if and only if no other option's separate value starts with `-C`. Before an empty
      subcommand it is also enough that the first such value is `-C` and only `-C -C` follows it. */
  lemma {:induction false} WorkdirExactlyWhen(resolve: (string, string) -> string, base: string, git: string,
                                              options: seq<GlobalOption>, subcommand: string, trailing: seq<string>)
    requires AllValid(options) && !StartsWith(subcommand, "-")
    ensures var args := [git] + Rendered(options) + ([subcommand] + trailing);
            var found := Scanned(Rendered(options), subcommand);
            && SubcommandFrom(args, 1).Some?
            && WorkdirFrom(resolve, args, SubcommandFrom(args, 1).value.index, 1, base) == Fold(resolve, base, found)
            && (found == AllDirectories(options)
                <==> !AnyMisread(options) || (subcommand == "" && EndsShifted(options)))
  {
    var args, limit := [git] + Rendered(options) + ([subcommand] + trailing), 1 + |Rendered(options)|;
    SubcommandRoundTrip(git, options, subcommand, trailing);
    OptionsStand(git, options, [subcommand] + trailing);
    assert args[limit + 0] == ([subcommand] + trailing)[0];
    ScanResolves(resolve, args, limit, 1, base);
    ScannedExactlyWhen(options, subcommand);
  }

  /** A word with a mark before each letter and one at its end. */
  function Marked(word: string): string {
    if word == "" then "." else [',', word[0]] + Marked(word[1..])
  }

  lemma {:induction false} MarkedApart(a: string, b: string, rest: string, other: string)
    requires Marked(a) + rest == Marked(b) + other
    ensures a == b && rest == other
  {
    assert (Marked(a) + rest)[0] == Marked(a)[0] && (Marked(b) + other)[0] == Marked(b)[0];
    if a == "" {
      SameHead(".", rest, other);
    } else {
      assert b != "";
      assert Marked(a) + rest == [',', a[0]] + (Marked(a[1..]) + rest);
      assert Marked(b) + other == [',', b[0]] + (Marked(b[1..]) + other);
      assert (Marked(a) + rest)[1] == a[0] && (Marked(b) + other)[1] == b[0];
      assert (Marked(a) + rest)[2..] == Marked(a[1..]) + rest && (Marked(b) + other)[2..] == Marked(b[1..]) + other;
      MarkedApart(a[1..], b[1..], rest, other);
      assert a == [a[0]] + a[1..] && b == [b[0]] + b[1..];
    }
  }

  function Spell(dir: string, part: string): string {
    dir + Marked(part)
  }

  function AllMarked(parts: seq<string>): string {
    if parts == [] then "" else Marked(parts[0]) + AllMarked(parts[1..])
  }

  lemma {:induction false} FoldSpells(dir: string, parts: seq<string>)
    ensures Fold(Spell, dir, parts) == dir + AllMarked(parts)
    decreases parts
  {
    if parts != [] {
      FoldSpells(Spell(dir, parts[0]), parts[1..]);
    } else {
      assert dir + "" == dir;
    }
  }

  lemma {:induction false} AllMarkedApart(a: seq<string>, b: seq<string>)
    ensures AllMarked(a) == AllMarked(b) <==> a == b
    decreases a
  {
    if AllMarked(a) == AllMarked(b) {
      if a != [] && b != [] {
        MarkedApart(a[0], b[0], AllMarked(a[1..]), AllMarked(b[1..]));
        AllMarkedApart(a[1..], b[1..]);
        assert a == [a[0]] + a[1..] && b == [b[0]] + b[1..];
      }
    }
  }

  /** Two lists of directories lead to the same place under every path resolution only if they are equal. */
  lemma {:induction false} FoldsTellApart(a: seq<string>, b: seq<string>)
    ensures (forall resolve: (string, string) -> string, base :: Fold(resolve, base, a) == Fold(resolve, base, b))
            <==> a == b
  {
    FoldSpells("", a);
    FoldSpells("", b);
    assert "" + AllMarked(a) == AllMarked(a) && "" + AllMarked(b) == AllMarked(b);
    AllMarkedApart(a, b);
    if a != b {
      assert Fold(Spell, "", a) != Fold(Spell, "", b);
    }
  }

  /** Under every path resolution, then, the directory is the right one if and only if that condition holds. */
  lemma {:induction false} WorkdirRightExactlyWhen(git: string, options: seq<GlobalOption>, subcommand: string,
                                                   trailing: seq<string>)
    requires AllValid(options) && !StartsWith(subcommand, "-")
    ensures var args, limit := [git] + Rendered(options) + ([subcommand] + trailing), 1 + |Rendered(options)|;
            (forall resolve: (string, string) -> string, base ::
               WorkdirFrom(resolve, args, limit, 1, base) == Fold(resolve, base, AllDirectories(options)))
            <==> !AnyMisread(options) || (subcommand == "" && EndsShifted(options))
  {
    var args, limit := [git] + Rendered(options) + ([subcommand] + trailing), 1 + |Rendered(options)|;
    var found, named := Scanned(Rendered(options), subcommand), AllDirectories(options);
    SubcommandRoundTrip(git, options, subcommand, trailing);
    ScannedExactlyWhen(options, subcommand);
    FoldsTellApart(found, named);
    forall resolve: (string, string) -> string, base
      ensures WorkdirFrom(resolve, args, limit, 1, base) == Fold(resolve, base, found)
    {
      WorkdirExactlyWhen(resolve, base, git, options, subcommand, trailing);
    }
    if found != named {
      var resolve: (string, string) -> string, base :| Fold(resolve, base, found) != Fold(resolve, base, named);
      assert WorkdirFrom(resolve, args, limit, 1, base) != Fold(resolve, base, named);
    }
  }

  /** So without such values the working directory is the fold over the `-C` values. */
  lemma {:induction false} WorkdirRoundTrip(resolve: (string, string) -> string, base: string, git: string,
                                            options: seq<GlobalOption>, subcommand: string, trailing: seq<string>)
    requires AllValid(options) && !StartsWith(subcommand, "-")
    requires forall o | o in options :: !o.Misread()
    ensures var args := [git] + Rendered(options) + ([subcommand] + trailing);
            && SubcommandFrom(args, 1).Some?
            && WorkdirFrom(resolve, args, SubcommandFrom(args, 1).value.index, 1, base)
               == Fold(resolve, base, AllDirectories(options))
  {
    WorkdirExactlyWhen(resolve, base, git, options, subcommand, trailing);
  }

  /** Why the condition is there: `git --git-dir -Cx status` is taken to run in `x`. */
  lemma MisreadValue(resolve: (string, string) -> string, base: string, path: string)
    requires path != ""
    ensures var options, args := [Separate("--git-dir", "-C" + path)], ["git", "--git-dir", "-C" + path, "status"];
            && args == ["git"] + Rendered(options) + ["status"]
            && SubcommandFrom(args, 1) == Some(GitCommandInfo("status", 3))
            && AllDirectories(options) == []
            && WorkdirFrom(resolve, args, 3, 1, base) == resolve(base, path)
  {
    var options, args := [Separate("--git-dir", "-C" + path)], ["git", "--git-dir", "-C" + path, "status"];
    assert Rendered(options[1..]) == [] && AllDirectories(options[1..]) == [];
    assert Rendered(options) == ["--git-dir", "-C" + path];
    assert "status"[0] != '-';
    SubcommandRoundTrip("git", options, "status", []);
    assert ["status"] + [] == ["status"];
    assert args == ["git"] + Rendered(options) + (["status"] + []);
    MisreadScan(resolve, args, 3, base, path);
  }

  lemma MisreadScan(resolve: (string, string) -> string, args: seq<string>, limit: nat, dir: string, path: string)
    requires limit == 3 <= |args| && args[1] == "--git-dir" && args[2] == "-C" + path && path != ""
    ensures WorkdirFrom(resolve, args, limit, 1, dir) == resolve(dir, path)
  {
    assert args[1][1] == '-' && "-C"[1] == 'C';
    assert !StartsWith(args[1], "-C");
    assert args[2][2..] == path && StartsWith(args[2], "-C");
    assert WorkdirFrom(resolve, args, limit, 2, dir) == WorkdirFrom(resolve, args, limit, 3, resolve(dir, path));
  }

  // ----- Policies -----

  predicate IsDestructive(command: Option<GitCommandInfo>, argv: seq<string>) {
    && command.Some?
    && (|| command.value.name in ["reset", "checkout", "clean", "restore", "switch", "stash", "branch",
                                  "filter-branch", "fast-import"]
        || (command.value.name == "bisect" && command.value.index + 1 < |argv|
            && argv[command.value.index + 1] == "reset"))
  }

  /** Whatever global options stand in front, `bisect` is destructive exactly when `reset` follows. */
  lemma {:induction false} BisectIsJudgedByItsAction(git: string, options: seq<GlobalOption>, trailing: seq<string>)
    requires AllValid(options)
    ensures var argv := [git] + Rendered(options) + (["bisect"] + trailing);
            IsDestructive(SubcommandFrom(argv, 1), argv) <==> trailing != [] && trailing[0] == "reset"
  {
    assert "bisect"[0] != '-';
    SubcommandRoundTrip(git, options, "bisect", trailing);
    var argv := [git] + Rendered(options) + (["bisect"] + trailing);
    assert argv[1 + |Rendered(options)|] == "bisect";
    if trailing != [] {
      assert argv[2 + |Rendered(options)|] == trailing[0];
    }
  }
}
