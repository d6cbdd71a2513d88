/**
 The closed read-only command union of apps/api/secp_api/discovery_bootstrap_contract.py, recognised twice:
 by `command_is_allowed` and by the shell wrapper that `render_force_command_wrapper` emits.  Command lines
 are built from words separated by spaces, and paths from segments separated by slashes.  A regular
 expression or sed pattern with token groups means that some tokens make the text (`Match`); Python applies
 it to the whole command, where `$` also matches before a final newline, and sed to every line of it.
 */
module ForcedCommand {
  import opened Wrappers

  // ------------------------------------------------------------------ joining and splitting

  function Join(parts: seq<string>, sep: char): string
    requires parts != []
    decreases |parts|
  {
    if |parts| == 1 then parts[0] else parts[0] + [sep] + Join(parts[1..], sep)
  }

  function Split(s: string, sep: char): (parts: seq<string>)
    ensures parts != []
    ensures forall p :: p in parts ==> sep !in p
    decreases |s|
  {
    if s == "" then [""]
    else
      var rest := Split(s[1..], sep);
      if s[0] == sep then [""] + rest
      else [[s[0]] + rest[0]] + rest[1..]
  }

  lemma {:induction false} JoinOfSplit(s: string, sep: char)
    ensures Join(Split(s, sep), sep) == s
    decreases |s|
  {
    if s != "" {
      var rest := Split(s[1..], sep);
      JoinOfSplit(s[1..], sep);
      if s[0] == sep {
        assert ([""] + rest)[1..] == rest;
        assert Join(Split(s, sep), sep) == "" + [sep] + s[1..];
      } else {
        var first := [s[0]] + rest[0];
        assert Split(s, sep) == [first] + rest[1..];
        if |rest| > 1 {
          assert ([first] + rest[1..])[1..] == rest[1..];
          assert Join([first] + rest[1..], sep) == [s[0]] + Join(rest, sep);
        }
      }
    }
  }

  lemma {:induction false} SplitOfPrefix(p: string, s: string, sep: char)
    requires sep !in p
    ensures Split(p + [sep] + s, sep) == [p] + Split(s, sep)
    decreases |p|
  {
    var whole := p + [sep] + s;
    if p == "" {
      assert whole[1..] == s;
    } else {
      assert whole[1..] == p[1..] + [sep] + s;
      SplitOfPrefix(p[1..], s, sep);
      assert [p[0]] + p[1..] == p;
    }
  }

  lemma {:induction false} SplitOfPlain(p: string, sep: char)
    requires sep !in p
    ensures Split(p, sep) == [p]
    decreases |p|
  {
    if p != "" {
      SplitOfPlain(p[1..], sep);
      assert [p[0]] + p[1..] == p;
    }
  }

  /** Parts free of the separator can be read back. */
  lemma {:induction false} SplitOfJoin(parts: seq<string>, sep: char)
    requires parts != [] && forall p :: p in parts ==> sep !in p
    ensures Split(Join(parts, sep), sep) == parts
    decreases |parts|
  {
    if |parts| == 1 {
      SplitOfPlain(parts[0], sep);
      assert [parts[0]] == parts;
    } else {
      SplitOfJoin(parts[1..], sep);
      SplitOfPrefix(parts[0], Join(parts[1..], sep), sep);
      assert [parts[0]] + parts[1..] == parts;
    }
  }

  // ------------------------------------------------------------------ the command union

  predicate TokenChar(c: char) {
    'A' <= c <= 'Z' || 'a' <= c <= 'z' || '0' <= c <= '9' || c == '.' || c == '_' || c == '@' || c == '-'
  }

  predicate Token(t: string) {
    1 <= |t| <= 64 && forall i :: 0 <= i < |t| ==> TokenChar(t[i])
  }

  predicate VmId(t: string) {
    1 <= |t| <= 12 && forall i :: 0 <= i < |t| ==> '0' <= t[i] <= '9'
  }

  datatype Fixed = PveVersion | Version | ClusterStatus | Nodes | Resources | NestedIntel | NestedAmd

  datatype Command =
    | Exact(fixed: Fixed)
    | NodeStatus(node: string)
    | NodeStorage(node: string)
    | NodeNetwork(node: string, iface: string)
    | FirewallGroup(grp: string)
    | AccessUser(user: string)
    | GuestStatus(node: string, vmid: string)

  predicate ValidTokens(c: Command) {
    match c
    case Exact(_) => true
    case NodeStatus(n) => Token(n)
    case NodeStorage(n) => Token(n)
    case NodeNetwork(n, i) => Token(n) && Token(i)
    case FirewallGroup(g) => Token(g)
    case AccessUser(u) => Token(u)
    case GuestStatus(n, v) => Token(n) && VmId(v)
  }

  /** The segments of the path a command reads; the leading empty one is the slash in front. */
  function Segments(c: Command): (r: seq<string>)
    ensures r != []
  {
    match c
    case Exact(PveVersion) => ["pveversion"]
    case Exact(Version) => ["", "version"]
    case Exact(ClusterStatus) => ["", "cluster", "status"]
    case Exact(Nodes) => ["", "nodes"]
    case Exact(Resources) => ["", "cluster", "resources"]
    case Exact(NestedIntel) => ["", "sys", "module", "kvm_intel", "parameters", "nested"]
    case Exact(NestedAmd) => ["", "sys", "module", "kvm_amd", "parameters", "nested"]
    case NodeStatus(n) => ["", "nodes", n, "status"]
    case NodeStorage(n) => ["", "nodes", n, "storage"]
    case NodeNetwork(n, i) => ["", "nodes", n, "network", i]
    case FirewallGroup(g) => ["", "cluster", "firewall", "groups", g]
    case AccessUser(u) => ["", "access", "users", u]
    case GuestStatus(n, v) => ["", "nodes", n, "qemu", v, "status", "current"]
  }

  /** The argument vector the wrapper executes. */
  function Argv(c: Command): (r: seq<string>)
    ensures r != []
  {
    var path := Join(Segments(c), '/');
    match c
    case Exact(PveVersion) => [path]
    case Exact(NestedIntel) => ["cat", path]
    case Exact(NestedAmd) => ["cat", path]
    case Exact(Resources) => ["pvesh", "get", path, "--type", "vm", "--output-format", "json"]
    case _ => ["pvesh", "get", path, "--output-format", "json"]
  }

  /** The command line. */
  function Render(c: Command): string {
    Join(Argv(c), ' ')
  }

  /** The language both recognisers should accept. */
  ghost predicate InLanguage(line: string) {
    exists c :: ValidTokens(c) && line == Render(c)
  }

  // ------------------------------------------------------------------ character classes

  /** The wrapper's bracket expression. */
  predicate Safe(c: char) {
    c == ' ' || TokenChar(c) || c == '/' || c == '='
  }

  predicate Space(c: char) {
    || c == ' ' || '\t' <= c <= '\r' || '\U{1C}' <= c <= '\U{1F}' || c == '\U{85}' || c == '\U{A0}' || c == '\U{1680}'
    || '\U{2000}' <= c <= '\U{200A}' || c == '\U{2028}' || c == '\U{2029}' || c == '\U{202F}' || c == '\U{205F}'
    || c == '\U{3000}'
  }

  predicate Metachar(c: char) {
    c in ";&|<>$`\\(){}[]*?!~'\"" || c == '\0' || c == '\n' || c == '\r' || c == '\t'
  }

  predicate AllSafe(s: string) {
    forall i :: 0 <= i < |s| ==> Safe(s[i])
  }

  /** `_SHELL_METACHARS_RE.search`: a metacharacter, or two white-space characters in a row. */
  predicate HasMetachar(s: string) {
    || (exists i :: 0 <= i < |s| && Metachar(s[i]))
    || (exists i :: 0 <= i < |s| - 1 && Space(s[i]) && Space(s[i + 1]))
  }

  lemma SafeIsNoMetachar(c: char)
    requires Safe(c)
    ensures !Metachar(c) && (Space(c) <==> c == ' ')
  {
  }

  /** A part of a rendered line: not empty, nothing but safe characters, no space. */
  predicate CleanWord(w: string) {
    w != "" && CleanChars(w)
  }

  predicate CleanSegment(w: string) {
    forall i :: 0 <= i < |w| ==> Safe(w[i]) && w[i] != ' ' && w[i] != '/'
  }

  predicate CleanChars(w: string) {
    forall i :: 0 <= i < |w| ==> Safe(w[i]) && w[i] != ' '
  }

  lemma {:induction false} JoinOfSegments(parts: seq<string>)
    requires parts != [] && forall p :: p in parts ==> CleanSegment(p)
    ensures CleanChars(Join(parts, '/'))
    ensures |parts| > 1 || parts[0] != "" ==> Join(parts, '/') != ""
    decreases |parts|
  {
    assert CleanSegment(parts[0]);
    if |parts| > 1 {
      JoinOfSegments(parts[1..]);
      assert Join(parts, '/') == parts[0] + ['/'] + Join(parts[1..], '/');
    }
  }

  lemma {:induction false} JoinOfWords(words: seq<string>)
    requires words != [] && forall w :: w in words ==> CleanWord(w)
    ensures var line := Join(words, ' ');
            && line != "" && line[0] != ' ' && AllSafe(line)
            && forall i :: 0 <= i < |line| - 1 ==> !(line[i] == ' ' && line[i + 1] == ' ')
    decreases |words|
  {
    assert CleanWord(words[0]);
    if |words| > 1 {
      var first, rest := words[0], Join(words[1..], ' ');
      JoinOfWords(words[1..]);
      var line := first + [' '] + rest;
      assert line == Join(words, ' ');
      forall i | 0 <= i < |line| - 1 ensures !(line[i] == ' ' && line[i + 1] == ' ') {
        if i < |first| {
          assert line[i] == first[i];
        } else if i == |first| {
          assert line[i + 1] == rest[0];
        } else {
          assert line[i] == rest[i - |first| - 1] && line[i + 1] == rest[i - |first|];
        }
      }
    }
  }

  lemma TokensAreClean(t: string)
    requires Token(t) || VmId(t)
    ensures CleanSegment(t) && t != ""
  {
  }

  lemma LiteralSegmentsAreClean()
    ensures CleanSegment("") && CleanSegment("pveversion") && CleanSegment("version") && CleanSegment("cluster")
    ensures CleanSegment("status") && CleanSegment("nodes") && CleanSegment("resources") && CleanSegment("sys")
    ensures CleanSegment("module") && CleanSegment("kvm_intel")
  {
  }

  lemma MoreLiteralSegmentsAreClean()
    ensures CleanSegment("kvm_amd") && CleanSegment("parameters")
    ensures CleanSegment("nested") && CleanSegment("storage") && CleanSegment("network") && CleanSegment("firewall")
    ensures CleanSegment("groups") && CleanSegment("access") && CleanSegment("users") && CleanSegment("qemu")
            && CleanSegment("current")
  {
  }

  lemma LiteralWordsAreClean()
    ensures CleanWord("cat") && CleanWord("pvesh") && CleanWord("get") && CleanWord("--type") && CleanWord("vm")
    ensures CleanWord("--output-format") && CleanWord("json")
  {
  }

  lemma SegmentsAreClean(c: Command)
    requires ValidTokens(c)
    ensures (forall p :: p in Segments(c) ==> CleanSegment(p)) && (|Segments(c)| > 1 || Segments(c)[0] != "")
  {
    LiteralSegmentsAreClean();
    MoreLiteralSegmentsAreClean();
    match c
    case Exact(_) =>
    case NodeStatus(n) => TokensAreClean(n);
    case NodeStorage(n) => TokensAreClean(n);
    case NodeNetwork(n, i) => TokensAreClean(n); TokensAreClean(i);
    case FirewallGroup(g) => TokensAreClean(g);
    case AccessUser(u) => TokensAreClean(u);
    case GuestStatus(n, v) => TokensAreClean(n); TokensAreClean(v);
  }

  lemma ArgvIsClean(c: Command)
    requires ValidTokens(c)
    ensures forall w :: w in Argv(c) ==> CleanWord(w)
  {
    SegmentsAreClean(c);
    JoinOfSegments(Segments(c));
    LiteralWordsAreClean();
  }

  /** A line of the language passes both coarse filters. */
  lemma LanguagePassesFilters(c: Command)
    requires ValidTokens(c)
    ensures Render(c) != "" && AllSafe(Render(c)) && !HasMetachar(Render(c))
  {
    ArgvIsClean(c);
    JoinOfWords(Argv(c));
    var line := Render(c);
    forall i | 0 <= i < |line| ensures !Metachar(line[i]) && (Space(line[i]) <==> line[i] == ' ') {
      SafeIsNoMetachar(line[i]);
    }
  }

  // ------------------------------------------------------------------ reading a line back

  lemma SplitsBack(c: Command)
    requires ValidTokens(c)
    ensures Split(Render(c), ' ') == Argv(c)
    ensures Split(Join(Segments(c), '/'), '/') == Segments(c)
  {
    ArgvIsClean(c);
    forall w | w in Argv(c) ensures ' ' !in w { assert CleanWord(w); }
    SplitOfJoin(Argv(c), ' ');
    SegmentsAreClean(c);
    forall p | p in Segments(c) ensures '/' !in p { assert CleanSegment(p); }
    SplitOfJoin(Segments(c), '/');
  }

  function FixedForms(): seq<Fixed> {
    [PveVersion, Version, ClusterStatus, Nodes, Resources, NestedIntel, NestedAmd]
  }

  /** The segments of the path of `pvesh get <path> --output-format json`. */
  function PathOf(line: string): Option<seq<string>> {
    var words := Split(line, ' ');
    if |words| == 5 && words[0] == "pvesh" && words[1] == "get" && words[3] == "--output-format" && words[4] == "json"
    then Some(Split(words[2], '/')) else None
  }

  datatype Kind = KNodeStatus | KNodeStorage | KNodeNetwork | KFirewallGroup | KAccessUser | KGuestStatus

  function Kinds(): seq<Kind> {
    [KNodeStatus, KNodeStorage, KNodeNetwork, KFirewallGroup, KAccessUser, KGuestStatus]
  }

  function KindOf(c: Command): Option<Kind> {
    match c
    case Exact(_) => None
    case NodeStatus(_) => Some(KNodeStatus)
    case NodeStorage(_) => Some(KNodeStorage)
    case NodeNetwork(_, _) => Some(KNodeNetwork)
    case FirewallGroup(_) => Some(KFirewallGroup)
    case AccessUser(_) => Some(KAccessUser)
    case GuestStatus(_, _) => Some(KGuestStatus)
  }

  /** One parameterized pattern: the tokens its groups capture, as the command they stand for. */
  function Match(line: string, kind: Kind): Option<Command> {
    var path := PathOf(line);
    if path.None? then None
    else
      var p := path.value;
      match kind
      case KNodeStatus =>
        if |p| == 4 && p[0] == "" && p[1] == "nodes" && Token(p[2]) && p[3] == "status" then Some(NodeStatus(p[2]))
        else None
      case KNodeStorage =>
        if |p| == 4 && p[0] == "" && p[1] == "nodes" && Token(p[2]) && p[3] == "storage" then Some(NodeStorage(p[2]))
        else None
      case KNodeNetwork =>
        if |p| == 5 && p[0] == "" && p[1] == "nodes" && Token(p[2]) && p[3] == "network" && Token(p[4])
        then Some(NodeNetwork(p[2], p[4])) else None
      case KFirewallGroup =>
        if |p| == 5 && p[0] == "" && p[1] == "cluster" && p[2] == "firewall" && p[3] == "groups" && Token(p[4])
        then Some(FirewallGroup(p[4])) else None
      case KAccessUser =>
        if |p| == 4 && p[0] == "" && p[1] == "access" && p[2] == "users" && Token(p[3]) then Some(AccessUser(p[3]))
        else None
      case KGuestStatus =>
        if |p| == 7 && p[0] == "" && p[1] == "nodes" && Token(p[2]) && p[3] == "qemu" && VmId(p[4])
           && p[5] == "status" && p[6] == "current" then Some(GuestStatus(p[2], p[4])) else None
  }

  lemma MatchedSegments(line: string, kind: Kind)
    requires Match(line, kind).Some?
    ensures var c := Match(line, kind).value;
            ValidTokens(c) && KindOf(c) == Some(kind) && Segments(c) == PathOf(line).value
  {
  }

  /** What a pattern captures renders back to the line. */
  lemma MatchRenders(line: string, kind: Kind)
    requires Match(line, kind).Some?
    ensures Render(Match(line, kind).value) == line
  {
    MatchedSegments(line, kind);
    var words := Split(line, ' ');
    JoinOfSplit(line, ' ');
    JoinOfSplit(words[2], '/');
    assert words == [words[0], words[1], words[2], words[3], words[4]];
    assert words == Argv(Match(line, kind).value);
  }

  /** A pattern captures every rendering of its kind, and gives back its very tokens. */
  lemma RenderMatches(c: Command)
    requires ValidTokens(c) && KindOf(c).Some?
    ensures Match(Render(c), KindOf(c).value) == Some(c)
  {
    RenderedPath(c);
    SegmentsMatch(Render(c), c);
  }

  lemma RenderedPath(c: Command)
    requires ValidTokens(c) && KindOf(c).Some?
    ensures PathOf(Render(c)) == Some(Segments(c))
  {
    SplitsBack(c);
  }

  lemma SegmentsMatch(line: string, c: Command)
    requires ValidTokens(c) && KindOf(c).Some? && PathOf(line) == Some(Segments(c))
    ensures Match(line, KindOf(c).value) == Some(c)
  {
  }

  /** Each accepted line has exactly one reading. */
  lemma UniqueParse(a: Command, b: Command)
    requires ValidTokens(a) && ValidTokens(b) && Render(a) == Render(b)
    ensures a == b
  {
    SplitsBack(a);
    SplitsBack(b);
    assert Argv(a) == Argv(b);
    PathIsAtIndex(a);
    PathIsAtIndex(b);
    SegmentsIdentify(a, b);
  }

  /** The position of the path, which the number of words decides. */
  function PathIndex(words: nat): nat {
    if words <= 2 then words - (if words == 0 then 0 else 1) else 2
  }

  lemma PathIsAtIndex(c: Command)
    ensures var k := PathIndex(|Argv(c)|); k < |Argv(c)| && Argv(c)[k] == Join(Segments(c), '/')
  {
    match c
    case Exact(f) => match f { case _ => }
    case _ =>
  }

  lemma SegmentsIdentify(a: Command, b: Command)
    requires Segments(a) == Segments(b)
    ensures a == b
  {
    var s, t := Segments(a), Segments(b);
    assert |s| == |t|;
    assert |s| > 1 ==> s[1] == t[1];
    assert |s| > 2 ==> s[2] == t[2];
    assert |s| > 3 ==> s[3] == t[3];
    assert |s| > 4 ==> s[4] == t[4];
  }

  // ------------------------------------------------------------------ the Python recogniser

  /** What the groups of a pattern capture, in order. */
  function Groups(c: Command): seq<string> {
    match c
    case Exact(_) => []
    case NodeStatus(n) => [n]
    case NodeStorage(n) => [n]
    case NodeNetwork(n, i) => [n, i]
    case FirewallGroup(g) => [g]
    case AccessUser(u) => [u]
    case GuestStatus(n, v) => [n, v]
  }

  ghost predicate MatchesFixed(line: string) {
    exists f :: f in FixedForms() && line == Render(Exact(f))
  }

  ghost predicate MatchesKind(line: string) {
    exists k :: k in Kinds() && Match(line, k).Some?
  }

  lemma LanguageIff(line: string)
    ensures InLanguage(line) <==> MatchesFixed(line) || MatchesKind(line)
  {
    if InLanguage(line) {
      var c :| ValidTokens(c) && line == Render(c);
      if c.Exact? {
        assert c.fixed in FixedForms();
      } else {
        RenderMatches(c);
        assert KindOf(c).value in Kinds();
      }
    }
    if MatchesFixed(line) {
      var f :| f in FixedForms() && line == Render(Exact(f));
      assert ValidTokens(Exact(f));
    }
    if MatchesKind(line) {
      var k :| k in Kinds() && Match(line, k).Some?;
      MatchedSegments(line, k);
      MatchRenders(line, k);
    }
  }

  lemma LanguageIsFiltered(line: string)
    requires InLanguage(line)
    ensures line != "" && AllSafe(line) && !HasMetachar(line)
  {
    var c :| ValidTokens(c) && line == Render(c);
    LanguagePassesFilters(c);
  }

  /** The first of some fixed lines that is this one: equality of whole texts, in both recognisers. */
  method FindFixed(line: string, forms: seq<Fixed>) returns (r: Option<Fixed>)
    ensures r.None? ==> forall f :: f in forms ==> line != Render(Exact(f))
    ensures r.Some? ==> r.value in forms && line == Render(Exact(r.value))
  {
    for i := 0 to |forms|
      invariant forall j :: 0 <= j < i ==> line != Render(Exact(forms[j]))
    {
      if line == Render(Exact(forms[i])) { return Some(forms[i]); }
    }
    return None;
  }

  lemma GroupsAreValid(c: Command)
    requires ValidTokens(c)
    ensures forall g :: g in Groups(c) ==> Token(g) || VmId(g)
  {
  }

  /** `pattern.match(line)`: with `^...$`, the `$` also matches in front of a final newline. */
  function PatternMatch(line: string, kind: Kind): Option<Command> {
    if Match(line, kind).Some? then Match(line, kind)
    else if line != "" && line[|line| - 1] == '\n' then Match(line[..|line| - 1], kind)
    else None
  }

  lemma NoFinalNewline(line: string, kind: Kind)
    requires !HasMetachar(line)
    ensures PatternMatch(line, kind) == Match(line, kind)
  {
    if line != "" { assert !Metachar(line[|line| - 1]); }
  }

  lemma PatternMatchIsValid(line: string, kind: Kind)
    requires PatternMatch(line, kind).Some?
    ensures ValidTokens(PatternMatch(line, kind).value)
  {
    if Match(line, kind).Some? { MatchedSegments(line, kind); } else { MatchedSegments(line[..|line| - 1], kind); }
  }

  /** The first of some patterns that matches, unless one of its groups is no token. */
  method FindKind(line: string, kinds: seq<Kind>) returns (found: bool)
    ensures found <==> exists k :: k in kinds && PatternMatch(line, k).Some?
  {
    for i := 0 to |kinds|
      invariant forall j :: 0 <= j < i ==> PatternMatch(line, kinds[j]).None?
    {
      var m := PatternMatch(line, kinds[i]);
      if m.Some? {
        PatternMatchIsValid(line, kinds[i]);
        GroupsAreValid(m.value);
        return forall g | g in Groups(m.value) :: Token(g) || VmId(g);
      }
    }
    return false;
  }

  /** `command_is_allowed`. */
  method CommandIsAllowed(line: string) returns (allowed: bool)
    ensures allowed <==> InLanguage(line)
  {
    LanguageIff(line);
    if InLanguage(line) { LanguageIsFiltered(line); }
    if line == "" || HasMetachar(line) { return false; }
    var f := FindFixed(line, FixedForms());
    if f.Some? { return true; }
    allowed := FindKind(line, Kinds());
    forall k ensures PatternMatch(line, k) == Match(line, k) { NoFinalNewline(line, k); }
  }

  // ------------------------------------------------------------------ the shell recogniser

  datatype Decision = Exec(argv: seq<string>) | Denied

  /** What `sed -n s#...#\1 \2#p` prints: for every line that matches, its groups with a space between. */
  function Printed(lines: seq<string>, kind: Kind): string {
    if lines == [] then ""
    else
      var m := Match(lines[0], kind);
      (if m.Some? && Groups(m.value) != [] then Join(Groups(m.value), ' ') + ['\n'] else "") + Printed(lines[1..], kind)
  }

  /** `$(...)` takes away every newline at the end. */
  function Chomped(t: string): string {
    if t != "" && t[|t| - 1] == '\n' then Chomped(t[..|t| - 1]) else t
  }

  function SedOutput(line: string, kind: Kind): string {
    Chomped(Printed(Split(line, '\n'), kind))
  }

  predicate TwoGroups(kind: Kind) {
    kind.KNodeNetwork? || kind.KGuestStatus?
  }

  function Spaced(t: string): (r: string)
    ensures |r| == |t|
  {
    if t == "" then "" else [if t[0] == '\n' || t[0] == '\t' then ' ' else t[0]] + Spaced(t[1..])
  }

  function NotEmpty(words: seq<string>): seq<string> {
    if words == [] then [] else (if words[0] == "" then [] else [words[0]]) + NotEmpty(words[1..])
  }

  /** The positional parameters: `set --` splits the output of the two-group patterns at white space. */
  function Parameters(kind: Kind, output: string): seq<string> {
    if TwoGroups(kind) then NotEmpty(Split(Spaced(output), ' ')) else [output]
  }

  /** `$1`, `$2`: empty when there is no such parameter. */
  function Parameter(ps: seq<string>, i: nat): string {
    if i < |ps| then ps[i] else ""
  }

  /** The path the wrapper puts together from the parameters. */
  function BuiltPath(kind: Kind, ps: seq<string>): string
  {
    match kind
    case KNodeStatus => "/nodes/" + Parameter(ps, 0) + "/status"
    case KNodeStorage => "/nodes/" + Parameter(ps, 0) + "/storage"
    case KNodeNetwork => "/nodes/" + Parameter(ps, 0) + "/network/" + Parameter(ps, 1)
    case KFirewallGroup => "/cluster/" + "firewall/" + "groups/" + Parameter(ps, 0)
    case KAccessUser => "/access/" + "users/" + Parameter(ps, 0)
    case KGuestStatus => "/nodes/" + Parameter(ps, 0) + "/qemu/" + Parameter(ps, 1) + "/status" + "/current"
  }

  lemma GroupsAreTokens(c: Command)
    requires ValidTokens(c) && KindOf(c).Some?
    ensures |Groups(c)| == if TwoGroups(KindOf(c).value) then 2 else 1
    ensures forall g :: g in Groups(c) ==> g != "" && ' ' !in g
  {
    forall g | g in Groups(c) ensures g != "" && ' ' !in g {
      TokensAreClean(g);
      assert CleanSegment(g);
    }
  }

  lemma ChompedPlain(t: string)
    requires t == "" || t[|t| - 1] != '\n'
    ensures Chomped(t) == t && Chomped(t + ['\n']) == t
  {
    assert (t + ['\n'])[..|t|] == t;
  }

  lemma {:induction false} SpacedSafe(t: string)
    requires AllSafe(t)
    ensures Spaced(t) == t
    decreases |t|
  {
    if t != "" {
      assert AllSafe(t[1..]);
      SpacedSafe(t[1..]);
      assert t == [t[0]] + t[1..];
    }
  }

  lemma {:induction false} NotEmptyKeeps(words: seq<string>)
    requires forall w :: w in words ==> w != ""
    ensures NotEmpty(words) == words
  {
    if words != [] {
      assert words[0] in words && forall w :: w in words[1..] ==> w in words;
      NotEmptyKeeps(words[1..]);
      assert words == [words[0]] + words[1..];
    }
  }

  lemma SafeIsOneLine(line: string)
    requires AllSafe(line)
    ensures '\n' !in line && Split(line, '\n') == [line]
  {
    forall i | 0 <= i < |line| ensures line[i] != '\n' { SafeIsNoMetachar(line[i]); }
    SplitOfPlain(line, '\n');
  }

  /** The groups of a command, joined, are a non-empty safe text. */
  lemma JoinedGroups(c: Command)
    requires ValidTokens(c) && KindOf(c).Some?
    ensures Groups(c) != [] && Join(Groups(c), ' ') != "" && AllSafe(Join(Groups(c), ' '))
  {
    forall g | g in Groups(c) ensures CleanWord(g) {
      TokensAreClean(g);
      assert CleanSegment(g);
    }
    JoinOfWords(Groups(c));
  }

  lemma PrintedOne(line: string, kind: Kind)
    ensures Printed([line], kind) == if Match(line, kind).Some? && Groups(Match(line, kind).value) != []
                                     then Join(Groups(Match(line, kind).value), ' ') + ['\n'] else ""
  {
    assert [line][1..] == [];
  }

  /** On one line the output is the captured groups, or nothing. */
  lemma SedOnOneLine(line: string, kind: Kind)
    requires '\n' !in line
    ensures Match(line, kind).None? ==> SedOutput(line, kind) == ""
    ensures Match(line, kind).Some? ==>
              var c := Match(line, kind).value; Groups(c) != [] && SedOutput(line, kind) == Join(Groups(c), ' ') != ""
  {
    SplitOfPlain(line, '\n');
    PrintedOne(line, kind);
    if Match(line, kind).Some? {
      MatchedSegments(line, kind);
      var c := Match(line, kind).value;
      JoinedGroups(c);
      SafeIsOneLine(Join(Groups(c), ' '));
      ChompedPlain(Join(Groups(c), ' '));
    }
  }

  /** The shell's splitting gives back exactly the captured groups. */
  lemma ParametersAreGroups(line: string, kind: Kind)
    requires '\n' !in line && Match(line, kind).Some?
    ensures SedOutput(line, kind) != ""
    ensures Parameters(kind, SedOutput(line, kind)) == Groups(Match(line, kind).value)
  {
    SedOnOneLine(line, kind);
    MatchedSegments(line, kind);
    var c := Match(line, kind).value;
    GroupsAreTokens(c);
    JoinedGroups(c);
    SpacedSafe(Join(Groups(c), ' '));
    SplitOfJoin(Groups(c), ' ');
    NotEmptyKeeps(Groups(c));
  }

  lemma BuiltPathIsThePath(c: Command)
    requires KindOf(c).Some?
    ensures |Groups(c)| == if TwoGroups(KindOf(c).value) then 2 else 1
    ensures BuiltPath(KindOf(c).value, Groups(c)) == Join(Segments(c), '/')
  {
    match c
    case NodeStatus(n) => NodeStatusPath(n);
    case NodeStorage(n) => NodeStoragePath(n);
    case NodeNetwork(n, i) => NodeNetworkPath(n, i);
    case FirewallGroup(g) => FirewallGroupPath(g);
    case AccessUser(u) => AccessUserPath(u);
    case GuestStatus(n, v) => GuestStatusPath(n, v);
  }

  lemma NodeStatusPath(n: string)
    ensures BuiltPath(KNodeStatus, Groups(NodeStatus(n))) == Join(Segments(NodeStatus(n)), '/')
  {
    JoinFour("", "nodes", n, "status");
    assert "/nodes/" == "" + ['/'] + "nodes" + ['/'];
    assert "/status" == ['/'] + "status";
  }

  lemma NodeStoragePath(n: string)
    ensures BuiltPath(KNodeStorage, Groups(NodeStorage(n))) == Join(Segments(NodeStorage(n)), '/')
  {
    JoinFour("", "nodes", n, "storage");
    assert "/nodes/" == "" + ['/'] + "nodes" + ['/'];
    assert "/storage" == ['/'] + "storage";
  }

  lemma NodeNetworkPath(n: string, i: string)
    ensures BuiltPath(KNodeNetwork, Groups(NodeNetwork(n, i))) == Join(Segments(NodeNetwork(n, i)), '/')
  {
    JoinFive("", "nodes", n, "network", i);
    RegroupFive("", "nodes", n, "network", i);
    assert "/nodes/" == "" + ['/'] + "nodes" + ['/'];
    assert "/network/" == ['/'] + "network" + ['/'];
  }

  lemma FirewallGroupPath(g: string)
    ensures BuiltPath(KFirewallGroup, Groups(FirewallGroup(g))) == Join(Segments(FirewallGroup(g)), '/')
  {
    JoinFive("", "cluster", "firewall", "groups", g);
    RegroupPrefix("", "cluster", "firewall", "groups", g);
    assert "/cluster/" == "" + ['/'] + "cluster" + ['/'];
    assert "firewall/" == "firewall" + ['/'];
    assert "groups/" == "groups" + ['/'];
  }

  lemma AccessUserPath(u: string)
    ensures BuiltPath(KAccessUser, Groups(AccessUser(u))) == Join(Segments(AccessUser(u)), '/')
  {
    JoinFour("", "access", "users", u);
    assert "/access/" == "" + ['/'] + "access" + ['/'];
    assert "users/" == "users" + ['/'];
  }

  lemma GuestStatusPath(n: string, v: string)
    ensures BuiltPath(KGuestStatus, Groups(GuestStatus(n, v))) == Join(Segments(GuestStatus(n, v)), '/')
  {
    JoinSeven("", "nodes", n, "qemu", v, "status", "current");
    RegroupSeven("", "nodes", n, "qemu", v, "status", "current");
    assert "/nodes/" == "" + ['/'] + "nodes" + ['/'];
    assert "/qemu/" == ['/'] + "qemu" + ['/'];
    assert "/status" == ['/'] + "status";
    assert "/current" == ['/'] + "current";
  }

  lemma JoinTwo(a: string, b: string)
    ensures Join([a, b], '/') == a + ['/'] + b
  {
    assert [a, b][1..] == [b];
  }

  lemma JoinFour(a: string, b: string, c: string, d: string)
    ensures Join([a, b, c, d], '/') == a + ['/'] + b + ['/'] + c + ['/'] + d
  {
    assert [a, b, c, d][1..] == [b, c, d];
    assert [b, c, d][1..] == [c, d];
    JoinTwo(c, d);
  }

  lemma JoinFive(a: string, b: string, c: string, d: string, e: string)
    ensures Join([a, b, c, d, e], '/') == a + ['/'] + b + ['/'] + c + ['/'] + d + ['/'] + e
  {
    assert [a, b, c, d, e][1..] == [b, c, d, e];
    JoinFour(b, c, d, e);
  }

  lemma JoinSeven(a: string, b: string, c: string, d: string, e: string, f: string, g: string)
    ensures Join([a, b, c, d, e, f, g], '/') == a + ['/'] + b + ['/'] + c + ['/'] + d + ['/'] + e + ['/'] + f + ['/']
            + g
  {
    assert [a, b, c, d, e, f, g][1..] == [b, c, d, e, f, g];
    assert [b, c, d, e, f, g][1..] == [c, d, e, f, g];
    JoinFive(c, d, e, f, g);
  }

  lemma RegroupFive(a: string, b: string, c: string, d: string, e: string)
    ensures (a + ['/'] + b + ['/']) + c + (['/'] + d + ['/']) + e == a + ['/'] + b + ['/'] + c + ['/'] + d + ['/'] + e
  {
    var front := a + ['/'] + b + ['/'] + c;
    assert front + (['/'] + d + ['/']) == front + ['/'] + d + ['/'];
  }

  lemma RegroupPrefix(a: string, b: string, c: string, d: string, e: string)
    ensures (a + ['/'] + b + ['/']) + (c + ['/']) + (d + ['/']) + e == a + ['/'] + b + ['/'] + c + ['/'] + d + ['/'] + e
  {
    var front := a + ['/'] + b + ['/'];
    assert front + (c + ['/']) == front + c + ['/'];
    assert front + c + ['/'] + (d + ['/']) == front + c + ['/'] + d + ['/'];
  }

  lemma RegroupSeven(a: string, b: string, c: string, d: string, e: string, f: string, g: string)
    ensures (a + ['/'] + b + ['/']) + c + (['/'] + d + ['/']) + e + (['/'] + f) + (['/'] + g)
         == a + ['/'] + b + ['/'] + c + ['/'] + d + ['/'] + e + ['/'] + f + ['/'] + g
  {
    var front := a + ['/'] + b + ['/'] + c;
    assert front + (['/'] + d + ['/']) == front + ['/'] + d + ['/'];
    var middle := front + ['/'] + d + ['/'] + e;
    assert middle + (['/'] + f) == middle + ['/'] + f;
    assert middle + ['/'] + f + (['/'] + g) == middle + ['/'] + f + ['/'] + g;
  }

  /** The wrapper's argument vector for a pattern that printed something. */
  lemma ReexecutedArgv(line: string, kind: Kind)
    requires '\n' !in line && Match(line, kind).Some?
    ensures ["pvesh", "get", BuiltPath(kind, Parameters(kind, SedOutput(line, kind))), "--output-format", "json"]
            == Argv(Match(line, kind).value)
  {
    MatchedSegments(line, kind);
    ParametersAreGroups(line, kind);
    BuiltPathIsThePath(Match(line, kind).value);
  }

  /** The argument vector `argv` is the one of a command of the language that reads as this line. */
  ghost predicate Reexecutes(line: string, argv: seq<string>) {
    argv != [] && Join(argv, ' ') == line && exists c :: ValidTokens(c) && line == Render(c) && argv == Argv(c)
  }

  lemma CommandReexecutes(line: string, c: Command)
    requires ValidTokens(c) && line == Render(c)
    ensures Reexecutes(line, Argv(c))
  {
  }

  lemma PatternReexecutes(line: string, kind: Kind)
    requires '\n' !in line && Match(line, kind).Some?
    ensures Reexecutes(line, ["pvesh", "get", BuiltPath(kind, Parameters(kind, SedOutput(line, kind))),
                              "--output-format", "json"])
  {
    ReexecutedArgv(line, kind);
    MatchedSegments(line, kind);
    MatchRenders(line, kind);
    CommandReexecutes(line, Match(line, kind).value);
  }

  /** The patterns in order, each with the vector it executes; what reaches them is one line. */
  method TryKinds(line: string, kinds: seq<Kind>) returns (d: Decision)
    requires '\n' !in line
    ensures d.Exec? <==> exists k :: k in kinds && Match(line, k).Some?
    ensures d.Exec? ==> Reexecutes(line, d.argv)
  {
    for i := 0 to |kinds|
      invariant forall j :: 0 <= j < i ==> Match(line, kinds[j]).None?
    {
      var kind := kinds[i];
      var output := SedOutput(line, kind);
      SedOnOneLine(line, kind);
      if output != "" {
        PatternReexecutes(line, kind);
        return Exec(["pvesh", "get", BuiltPath(kind, Parameters(kind, output)), "--output-format", "json"]);
      }
    }
    return Denied;
  }

  /** The wrapper: the coarse filter, the fixed lines in order, then the patterns in order. */
  method ForceCommandWrapper(line: string) returns (d: Decision)
    ensures d.Exec? <==> InLanguage(line)
    ensures d.Exec? ==> Reexecutes(line, d.argv)
  {
    LanguageIff(line);
    if InLanguage(line) { LanguageIsFiltered(line); }
    if !AllSafe(line) { return Denied; }
    SafeIsOneLine(line);
    var f := FindFixed(line, FixedForms());
    if f.Some? {
      CommandReexecutes(line, Exact(f.value));
      return Exec(Argv(Exact(f.value)));
    }
    d := TryKinds(line, Kinds());
  }

  // ------------------------------------------------------------------ what the filters are for

  lemma NewlineIsNotInLanguage(line: string)
    requires '\n' in line
    ensures !InLanguage(line) && forall k :: Match(line, k).None?
  {
    if InLanguage(line) {
      LanguageIsFiltered(line);
      SafeIsOneLine(line);
    }
    forall k ensures Match(line, k).None? {
      if Match(line, k).Some? {
        MatchedSegments(line, k);
        MatchRenders(line, k);
        assert InLanguage(line);
      }
    }
  }

  /** Without its filter the Python recogniser would take a rendering with a newline at the end. */
  lemma FinalNewlineMatches(c: Command)
    requires ValidTokens(c) && KindOf(c).Some?
    ensures var line := Render(c) + ['\n']; PatternMatch(line, KindOf(c).value) == Some(c) && !InLanguage(line)
  {
    var line := Render(c) + ['\n'];
    assert line[|line| - 1] == '\n' && line[..|line| - 1] == Render(c);
    assert '\n' in line;
    NewlineIsNotInLanguage(line);
    RenderMatches(c);
  }

  lemma PrintedTwo(first: string, second: string, kind: Kind)
    requires Match(first, kind).None?
    ensures Printed([first] + [second], kind) == Printed([second], kind)
  {
    assert ([first] + [second])[1..] == [second];
  }

  lemma PatternMatchNeedsOneLine(line: string, kind: Kind)
    requires '\n' in line && line[|line| - 1] != '\n'
    ensures PatternMatch(line, kind).None?
  {
    NewlineIsNotInLanguage(line);
  }

  /**
   Without the filters the two recognisers differ: sed looks at every line, so a rendering on the second
   line would be executed whatever the first line says, and no Python pattern matches the whole.
   */
  lemma SecondLineIsSeen(first: string, c: Command)
    requires ValidTokens(c) && KindOf(c).Some? && '\n' !in first && Match(first, KindOf(c).value).None?
    ensures var line := first + ['\n'] + Render(c);
            && SedOutput(line, KindOf(c).value) != ""
            && (forall k :: PatternMatch(line, k).None?) && !InLanguage(line)
  {
    var line := first + ['\n'] + Render(c);
    var kind := KindOf(c).value;
    LanguagePassesFilters(c);
    SafeIsOneLine(Render(c));
    SplitOfPrefix(first, Render(c), '\n');
    PrintedTwo(first, Render(c), kind);
    RenderMatches(c);
    SedOnOneLine(Render(c), kind);
    assert SedOutput(line, kind) == SedOutput(Render(c), kind);
    assert line[|first|] == '\n';
    assert line[|line| - 1] == Render(c)[|Render(c)| - 1];
    NewlineIsNotInLanguage(line);
    forall k ensures PatternMatch(line, k).None? { PatternMatchNeedsOneLine(line, k); }
  }
}
