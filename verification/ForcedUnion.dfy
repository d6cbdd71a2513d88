/**
 The closed union written out: the very lines both recognisers of the forced command let through.
 */
module ForcedUnion {
  import opened Wrappers
  import opened ForcedCommand

  /** Letters, digits and four marks, 64 characters at most. */
  ghost predicate Name(t: string) {
    t != "" && |t| <= 64
    && forall i :: 0 <= i < |t| ==>
         (t[i] >= 'a' && t[i] <= 'z') || (t[i] >= 'A' && t[i] <= 'Z') || (t[i] >= '0' && t[i] <= '9') || t[i] in "._@-"
  }

  ghost predicate Number(t: string) {
    t != "" && |t| <= 12 && forall i :: 0 <= i < |t| ==> t[i] >= '0' && t[i] <= '9'
  }

  /** A read of one path. */
  ghost predicate Read(line: string, path: string) {
    line == "pvesh get " + path + " --output-format json"
  }

  /** Whether a kernel module allows nested guests. */
  ghost predicate NestedLine(line: string, m: string) {
    line == "cat " + ("/sys/module/" + m + "/parameters/nested")
  }

  ghost predicate FixedLine(line: string) {
    || line == "pveversion"
    || Read(line, "/version") || Read(line, "/cluster/status") || Read(line, "/nodes")
    || Read(line, "/cluster/resources" + " --type vm")
    || NestedLine(line, "kvm_intel") || NestedLine(line, "kvm_amd")
  }

  ghost predicate NodeRead(line: string, tail: string) {
    exists n :: Name(n) && Read(line, "/nodes/" + n + tail)
  }

  ghost predicate NetworkRead(line: string) {
    exists n, i :: Name(n) && Name(i) && Read(line, "/nodes/" + n + "/network/" + i)
  }

  ghost predicate NamedRead(line: string, head: string) {
    exists x :: Name(x) && Read(line, head + x)
  }

  ghost predicate GuestRead(line: string) {
    exists n, v :: Name(n) && Number(v) && Read(line, "/nodes/" + n + "/qemu/" + v + "/status/current")
  }

  ghost predicate Filled(line: string) {
    || NodeRead(line, "/status") || NodeRead(line, "/storage") || NetworkRead(line)
    || NamedRead(line, "/cluster/firewall/groups/") || NamedRead(line, "/access/users/") || GuestRead(line)
  }

  lemma NameIff(t: string)
    ensures Token(t) <==> Name(t)
  {
    forall c ensures TokenChar(c) <==>
                     (c >= 'a' && c <= 'z') || (c >= 'A' && c <= 'Z') || (c >= '0' && c <= '9') || c in "._@-" {
    }
  }

  lemma NumberIff(t: string)
    ensures VmId(t) <==> Number(t)
  {
  }

  lemma SpacedTwo(a: string, b: string)
    ensures Join([a, b], ' ') == a + " " + b
  {
    assert [a, b][1..] == [b];
  }

  lemma SpacedFive(path: string)
    ensures Join(["pvesh", "get", path, "--output-format", "json"], ' ')
            == "pvesh get " + path + " --output-format json"
  {
    var rest := [path, "--output-format", "json"];
    assert rest[1..] == ["--output-format", "json"];
    SpacedTwo("--output-format", "json");
    assert Join(rest, ' ') == path + [' '] + ("--output-format" + " " + "json");
    assert ["get"] + rest == ["get", path, "--output-format", "json"];
    assert (["get"] + rest)[1..] == rest;
    assert Join(["get"] + rest, ' ') == "get" + [' '] + Join(rest, ' ');
    assert (["pvesh"] + (["get"] + rest))[1..] == ["get"] + rest;
    assert Join(["pvesh"] + (["get"] + rest), ' ') == "pvesh" + [' '] + Join(["get"] + rest, ' ');
    assert ["pvesh"] + (["get"] + rest) == ["pvesh", "get", path, "--output-format", "json"];
    assert "pvesh" + [' '] + ("get" + [' '] + (path + [' '] + ("--output-format" + " " + "json")))
        == "pvesh get " + path + " --output-format json";
  }

  /** A parameterised command reads its path. */
  lemma FilledReads(c: Command)
    requires KindOf(c).Some?
    ensures Read(Render(c), BuiltPath(KindOf(c).value, Groups(c)))
  {
    BuiltPathIsThePath(c);
    SpacedFive(Join(Segments(c), '/'));
  }

  ghost function PathText(c: Command): string
    requires KindOf(c).Some?
  {
    match c
    case NodeStatus(n) => "/nodes/" + n + "/status"
    case NodeStorage(n) => "/nodes/" + n + "/storage"
    case NodeNetwork(n, i) => "/nodes/" + n + "/network/" + i
    case FirewallGroup(g) => "/cluster/firewall/groups/" + g
    case AccessUser(u) => "/access/users/" + u
    case GuestStatus(n, v) => "/nodes/" + n + "/qemu/" + v + "/status/current"
  }

  lemma BuiltIsPathText(c: Command)
    requires KindOf(c).Some?
    ensures BuiltPath(KindOf(c).value, Groups(c)) == PathText(c)
  {
    match c
    case FirewallGroup(g) => assert "/cluster/" + "firewall/" + "groups/" == "/cluster/firewall/groups/";
    case AccessUser(u) => assert "/access/" + "users/" == "/access/users/";
    case GuestStatus(n, v) =>
      assert "/nodes/" + n + "/qemu/" + v + "/status" + "/current"
          == "/nodes/" + n + "/qemu/" + v + ("/status" + "/current");
      assert "/status" + "/current" == "/status/current";
    case _ =>
  }

  lemma FilledIs(c: Command)
    requires KindOf(c).Some?
    ensures Read(Render(c), PathText(c))
  {
    FilledReads(c);
    BuiltIsPathText(c);
  }

  // ------------------------------------------------------------------ the fixed lines

  lemma Slashed(a: string, rest: seq<string>)
    requires rest != []
    ensures Join([a] + rest, '/') == a + "/" + Join(rest, '/')
  {
    assert ([a] + rest)[1..] == rest;
  }

  lemma JoinSix(a: string, b: string, m: string, c: string, d: string)
    ensures Join(["", a, b, m, c, d], '/')
            == ("" + ['/'] + a + ['/'] + b + ['/']) + m + (['/'] + c + ['/'] + d)
  {
    var rest := [a, b, m, c, d];
    JoinFive(a, b, m, c, d);
    Slashed("", rest);
    assert [""] + rest == ["", a, b, m, c, d];
    var front := a + ['/'] + b + ['/'];
    assert front + m + ['/'] + c + ['/'] + d == front + m + (['/'] + c + ['/'] + d);
    assert "" + "/" + (front + m + (['/'] + c + ['/'] + d)) == ("" + ['/'] + front) + m + (['/'] + c + ['/'] + d);
    assert "" + ['/'] + front == "" + ['/'] + a + ['/'] + b + ['/'];
  }

  lemma NestedHead()
    ensures "" + ['/'] + "sys" + ['/'] + "module" + ['/'] == "/sys/module/"
  {
  }

  lemma NestedTail()
    ensures ['/'] + "parameters" + ['/'] + "nested" == "/parameters/nested"
  {
  }

  lemma NestedPath(m: string)
    ensures Join(["", "sys", "module", m, "parameters", "nested"], '/') == "/sys/module/" + m + "/parameters/nested"
  {
    JoinSix("sys", "module", m, "parameters", "nested");
    NestedHead();
    NestedTail();
  }

  lemma JoinThree(a: string, b: string, c: string)
    ensures Join([a, b, c], '/') == a + ['/'] + b + ['/'] + c
  {
    assert [a, b, c][1..] == [b, c];
    JoinTwo(b, c);
  }

  lemma SpacedThree(a: string, b: string, c: string)
    ensures Join([a, b, c], ' ') == a + " " + b + " " + c
  {
    Spaced(a, [b, c]);
    SpacedTwo(b, c);
    assert [a] + [b, c] == [a, b, c];
  }

  lemma SpacedSeven(path: string)
    ensures Join(["pvesh", "get", path, "--type", "vm", "--output-format", "json"], ' ')
            == "pvesh get " + (path + " --type vm") + " --output-format json"
  {
    var t1 := ["vm", "--output-format", "json"];
    var t2, t3 := ["--type"] + t1, [path] + (["--type"] + t1);
    SpacedThree("vm", "--output-format", "json");
    Spaced("--type", t1);
    Spaced(path, t2);
    Spaced("get", t3);
    Spaced("pvesh", ["get"] + t3);
    assert ["pvesh"] + (["get"] + t3) == ["pvesh", "get", path, "--type", "vm", "--output-format", "json"];
    Regrouped(path);
  }

  lemma Regrouped(path: string)
    ensures "pvesh" + " " + ("get" + " " + (path + " "
        + ("--type" + " " + ("vm" + " " + "--output-format" + " " + "json"))))
         == "pvesh get " + (path + " --type vm") + " --output-format json"
  {
    assert "pvesh" + " " + ("get" + " ") == "pvesh get ";
    assert " " + ("--type" + " " + "vm") == " --type vm";
    assert " " + "--output-format" + " " + "json" == " --output-format json";
  }

  lemma Spaced(a: string, rest: seq<string>)
    requires rest != []
    ensures Join([a] + rest, ' ') == a + " " + Join(rest, ' ')
  {
    assert ([a] + rest)[1..] == rest;
  }

  lemma FixedReads(path: string, c: Command)
    requires Argv(c) == ["pvesh", "get", path, "--output-format", "json"]
    ensures Read(Render(c), path)
  {
    SpacedFive(path);
  }

  lemma VersionIs()
    ensures Read(Render(Exact(Version)), "/version")
  {
    JoinTwo("", "version");
    assert "" + ['/'] + "version" == "/version";
    FixedReads("/version", Exact(Version));
  }

  lemma ClusterStatusIs()
    ensures Read(Render(Exact(ClusterStatus)), "/cluster/status")
  {
    JoinThree("", "cluster", "status");
    assert "" + ['/'] + "cluster" + ['/'] + "status" == "/cluster/status";
    FixedReads("/cluster/status", Exact(ClusterStatus));
  }

  lemma NodesIs()
    ensures Read(Render(Exact(Nodes)), "/nodes")
  {
    JoinTwo("", "nodes");
    assert "" + ['/'] + "nodes" == "/nodes";
    FixedReads("/nodes", Exact(Nodes));
  }

  lemma ResourcesIs()
    ensures Read(Render(Exact(Resources)), "/cluster/resources" + " --type vm")
  {
    JoinThree("", "cluster", "resources");
    assert "" + ['/'] + "cluster" + ['/'] + "resources" == "/cluster/resources";
    SpacedSeven("/cluster/resources");
  }

  lemma NestedIs(f: Fixed, m: string)
    requires Segments(Exact(f)) == ["", "sys", "module", m, "parameters", "nested"]
    requires Argv(Exact(f)) == ["cat", Join(Segments(Exact(f)), '/')]
    ensures NestedLine(Render(Exact(f)), m)
  {
    NestedPath(m);
    SpacedTwo("cat", "/sys/module/" + m + "/parameters/nested");
    assert "cat" + " " == "cat ";
  }

  ghost predicate FixedText(line: string, f: Fixed) {
    match f
    case PveVersion => line == "pveversion"
    case Version => Read(line, "/version")
    case ClusterStatus => Read(line, "/cluster/status")
    case Nodes => Read(line, "/nodes")
    case Resources => Read(line, "/cluster/resources" + " --type vm")
    case NestedIntel => NestedLine(line, "kvm_intel")
    case NestedAmd => NestedLine(line, "kvm_amd")
  }

  lemma FixedIs(line: string, f: Fixed)
    ensures line == Render(Exact(f)) <==> FixedText(line, f)
  {
    match f
    case PveVersion =>
    case Version => VersionIs();
    case ClusterStatus => ClusterStatusIs();
    case Nodes => NodesIs();
    case Resources => ResourcesIs();
    case NestedIntel => NestedIs(f, "kvm_intel");
    case NestedAmd => NestedIs(f, "kvm_amd");
  }

  lemma FilledTokens(c: Command)
    ensures ValidTokens(c) <==>
            match c
            case Exact(_) => true
            case NodeStatus(n) => Name(n)
            case NodeStorage(n) => Name(n)
            case NodeNetwork(n, i) => Name(n) && Name(i)
            case FirewallGroup(g) => Name(g)
            case AccessUser(u) => Name(u)
            case GuestStatus(n, v) => Name(n) && Number(v)
  {
    match c
    case Exact(_) =>
    case NodeStatus(n) => NameIff(n);
    case NodeStorage(n) => NameIff(n);
    case NodeNetwork(n, i) => NameIff(n); NameIff(i);
    case FirewallGroup(g) => NameIff(g);
    case AccessUser(u) => NameIff(u);
    case GuestStatus(n, v) => NameIff(n); NumberIff(v);
  }

  lemma ReadIsCommand(line: string, c: Command)
    requires KindOf(c).Some? && ValidTokens(c) && Read(line, PathText(c))
    ensures InLanguage(line)
  {
    FilledIs(c);
  }

  lemma CommandIsInUnion(c: Command)
    requires ValidTokens(c)
    ensures FixedLine(Render(c)) || Filled(Render(c))
  {
    FilledTokens(c);
    if c.Exact? {
      FixedIs(Render(c), c.fixed);
      assert FixedText(Render(c), c.fixed);
    } else {
      FilledIs(c);
      ReadIsFilled(Render(c), c);
    }
  }

  lemma ReadIsFilled(line: string, c: Command)
    requires KindOf(c).Some? && ValidTokens(c) && Read(line, PathText(c))
    ensures Filled(line)
  {
    FilledTokens(c);
  }

  lemma NodeReadIsCommand(line: string)
    requires NodeRead(line, "/status") || NodeRead(line, "/storage") || NetworkRead(line)
    ensures InLanguage(line)
  {
    if n :| Name(n) && Read(line, "/nodes/" + n + "/status") {
      FilledTokens(NodeStatus(n));
      ReadIsCommand(line, NodeStatus(n));
    } else if n :| Name(n) && Read(line, "/nodes/" + n + "/storage") {
      FilledTokens(NodeStorage(n));
      ReadIsCommand(line, NodeStorage(n));
    } else {
      var n, i :| Name(n) && Name(i) && Read(line, "/nodes/" + n + "/network/" + i);
      FilledTokens(NodeNetwork(n, i));
      ReadIsCommand(line, NodeNetwork(n, i));
    }
  }

  lemma OtherReadIsCommand(line: string)
    requires NamedRead(line, "/cluster/firewall/groups/") || NamedRead(line, "/access/users/") || GuestRead(line)
    ensures InLanguage(line)
  {
    if g :| Name(g) && Read(line, "/cluster/firewall/groups/" + g) {
      FilledTokens(FirewallGroup(g));
      ReadIsCommand(line, FirewallGroup(g));
    } else if u :| Name(u) && Read(line, "/access/users/" + u) {
      FilledTokens(AccessUser(u));
      ReadIsCommand(line, AccessUser(u));
    } else {
      var n, v :| Name(n) && Number(v) && Read(line, "/nodes/" + n + "/qemu/" + v + "/status/current");
      FilledTokens(GuestStatus(n, v));
      ReadIsCommand(line, GuestStatus(n, v));
    }
  }

  /** Seven fixed lines, and six forms of line that read one path with tokens in it: this is the whole language. */
  lemma UnionIs(line: string)
    ensures InLanguage(line) <==> FixedLine(line) || Filled(line)
  {
    if c :| ValidTokens(c) && line == Render(c) { CommandIsInUnion(c); }
    if FixedLine(line) {
      FixedLineIff(line);
      var f :| FixedText(line, f);
      FixedIs(line, f);
      assert ValidTokens(Exact(f));
    }
    if NodeRead(line, "/status") || NodeRead(line, "/storage") || NetworkRead(line) { NodeReadIsCommand(line); }
    if NamedRead(line, "/cluster/firewall/groups/") || NamedRead(line, "/access/users/") || GuestRead(line) {
      OtherReadIsCommand(line);
    }
  }

  lemma FixedLineIff(line: string)
    ensures FixedLine(line) <==> exists f :: FixedText(line, f)
  {
    if FixedLine(line) {
      assert FixedText(line, PveVersion) || FixedText(line, Version) || FixedText(line, ClusterStatus)
             || FixedText(line, Nodes) || FixedText(line, Resources) || FixedText(line, NestedIntel)
             || FixedText(line, NestedAmd);
    }
  }
}
