/**
 What a discovery signature covers: observations (apps/api/secp_api/discovery_observation.py), the per-node
 accounting of contributions and the canonical commitment
 (apps/api/secp_api/discovery_fact_commitment.py).
 */
module DiscoveryCommitment {
  import opened Wrappers
  import opened Ordering
  import opened DiscoveryValues

  // ------------------------------------------------------------------ observations

  datatype State =
    | Observed | ObservedMalformed | ObservedUnsupported | NotRequested | NotImplemented
    | PermissionDenied | ProbeRefused | ProbeFailed | SourceUnavailable

  /** `Unnamed` is the empty reason code; `Code` is one a producer wrote, the others are the projection's. */
  datatype Reason =
    | Unnamed
    | Code(text: string)
    | NotSupplied | NoSourceYet | MissingComponent | ComponentUnobserved | VmAuthorityMissing | SdnAuthorityMissing
    | NotObservedByRun | PendingIncomplete(missing: seq<string>) | NodeNamesUnknown | NotNodeKeyed
    | NotAccounted(nodes: map<string, NodeOutcome>)

  datatype Observation = Observation(state: State, value: Option<Value>, reason: Reason, privilege: string)

  predicate NotLooked(s: State) {
    s in {NotRequested, NotImplemented, PermissionDenied, ProbeRefused, ProbeFailed, SourceUnavailable}
  }

  /** What `__post_init__` lets be constructed. */
  predicate Constructible(o: Observation) {
    && (NotLooked(o.state) ==> o.value.None? && o.reason != Unnamed)
    && (o.state == PermissionDenied ==> o.privilege != "")
    && (o.state == Observed ==> o.value.Some? && o.value != Some(Null))
  }

  predicate Usable(o: Observation) {
    o.state == Observed
  }

  // ------------------------------------------------------------------ accounting for nodes

  datatype NodeOutcome = NodeObserved | NodeDenied | NodeUnsupported | NodeFailed | NodeMissing
      | AnsweredWithoutCovering

  /** `digest` is the digest of the canonical value, kept as that value; absent for an unusable answer. */
  datatype Contribution = Contribution(operation: string, path: string, state: State, subject: string,
                                       reason: Reason, privilege: string, digest: Option<Value>, scope: seq<string>)

  /** `subject.split("/", 1)[0]` */
  function NodeOf(subject: string): (r: string)
    ensures '/' !in r && (r == subject || r + "/" <= subject)
  {
    if subject == "" || subject[0] == '/' then "" else [subject[0]] + NodeOf(subject[1..])
  }

  predicate Speaks(c: Contribution, node: string) {
    node != "" && NodeOf(c.subject) == node
  }

  function OutcomeOf(s: State): NodeOutcome {
    match s
    case Observed => NodeObserved
    case PermissionDenied => NodeDenied
    case ObservedUnsupported => NodeUnsupported
    case _ => NodeFailed
  }

  /** The worst of some outcomes: denied, failed, unsupported, observed. */
  function Worst(outcomes: set<NodeOutcome>): NodeOutcome {
    if NodeDenied in outcomes then NodeDenied
    else if NodeFailed in outcomes then NodeFailed
    else if NodeUnsupported in outcomes then NodeUnsupported
    else if NodeObserved in outcomes then NodeObserved
    else NodeMissing
  }

  function OutcomesAbout(node: string, cs: seq<Contribution>): set<NodeOutcome> {
    set c | c in cs && Speaks(c, node) :: OutcomeOf(c.state)
  }

  function Accounting(nodes: seq<string>, cs: seq<Contribution>): map<string, NodeOutcome> {
    map n | n in nodes :: Worst(OutcomesAbout(n, cs))
  }

  /** A node counts as observed exactly when something spoke for it and nothing about it failed. */
  lemma ObservedIff(node: string, cs: seq<Contribution>)
    ensures Worst(OutcomesAbout(node, cs)) == NodeObserved
       <==> (exists c :: c in cs && Speaks(c, node)) && (forall c :: c in cs && Speaks(c, node) ==> c.state == Observed)
  {
    var outcomes := OutcomesAbout(node, cs);
    if Worst(outcomes) == NodeObserved {
      assert NodeObserved in outcomes;
      forall c | c in cs && Speaks(c, node) ensures c.state == Observed {
        assert OutcomeOf(c.state) in outcomes;
      }
    } else if exists c :: c in cs && Speaks(c, node) {
      var c :| c in cs && Speaks(c, node);
      assert OutcomeOf(c.state) in outcomes;
      var bad :| bad in outcomes && bad != NodeObserved;
    }
  }

  lemma OutcomeIsThere(node: string, cs: seq<Contribution>, o: NodeOutcome)
    ensures o in OutcomesAbout(node, cs) <==> exists c :: c in cs && Speaks(c, node) && OutcomeOf(c.state) == o
  {
  }

  /** The other outcomes: silence; one denial; among no denials one failure; among neither one refusal to support it. */
  lemma OtherOutcomesIff(node: string, cs: seq<Contribution>)
    ensures var worst := Worst(OutcomesAbout(node, cs));
            && (worst == NodeMissing <==> forall c :: c in cs ==> !Speaks(c, node))
            && (worst == NodeDenied <==> Reported(node, cs, NodeDenied))
            && (worst == NodeFailed <==> !Reported(node, cs, NodeDenied) && Reported(node, cs, NodeFailed))
            && (worst == NodeUnsupported <==>
                !Reported(node, cs, NodeDenied) && !Reported(node, cs, NodeFailed)
                && Reported(node, cs, NodeUnsupported))
  {
    OutcomeIsThere(node, cs, NodeDenied);
    OutcomeIsThere(node, cs, NodeFailed);
    OutcomeIsThere(node, cs, NodeUnsupported);
    OutcomeIsThere(node, cs, NodeObserved);
    SilenceIff(node, cs);
  }

  /** Some contribution about the node has this outcome. */
  ghost predicate Reported(node: string, cs: seq<Contribution>, o: NodeOutcome) {
    exists c :: c in cs && Speaks(c, node) && OutcomeOf(c.state) == o
  }

  lemma SilenceIff(node: string, cs: seq<Contribution>)
    ensures (forall c :: c in cs ==> !Speaks(c, node)) <==>
            forall o :: o in {NodeDenied, NodeFailed, NodeUnsupported, NodeObserved} ==> !Reported(node, cs, o)
  {
    forall c | c in cs && Speaks(c, node) ensures Reported(node, cs, OutcomeOf(c.state)) {
    }
  }

  /** What is grouped under each node, after some contributions. */
  ghost predicate Grouped(groups: map<string, seq<State>>, cs: seq<Contribution>) {
    && "" !in groups
    && (forall n :: n in groups ==> groups[n] != [])
    && (forall n, s :: n in groups && s in groups[n] ==> exists c :: c in cs && Speaks(c, n) && c.state == s)
    && (forall c :: c in cs && NodeOf(c.subject) != "" ==>
          NodeOf(c.subject) in groups && c.state in groups[NodeOf(c.subject)])
  }

  lemma GroupedStep(groups: map<string, seq<State>>, cs: seq<Contribution>, c: Contribution)
    requires Grouped(groups, cs)
    ensures var node := NodeOf(c.subject);
            Grouped(if node == "" then groups
                    else groups[node := (if node in groups then groups[node] else []) + [c.state]], cs + [c])
  {
    var node := NodeOf(c.subject);
    if node != "" {
      var states := (if node in groups then groups[node] else []) + [c.state];
      var groups' := groups[node := states];
      forall n, s | n in groups' && s in groups'[n] ensures exists d :: d in cs + [c] && Speaks(d, n) && d.state == s {
        if n == node && s == c.state {
          assert c in cs + [c] && Speaks(c, n);
        } else {
          assert n in groups && s in groups[n];
          var d :| d in cs && Speaks(d, n) && d.state == s;
          assert d in cs + [c];
        }
      }
    } else {
      forall n, s | n in groups && s in groups[n] ensures exists d :: d in cs + [c] && Speaks(d, n) && d.state == s {
        var d :| d in cs && Speaks(d, n) && d.state == s;
        assert d in cs + [c];
      }
    }
  }

  lemma GroupedOutcomes(groups: map<string, seq<State>>, cs: seq<Contribution>, n: string)
    requires Grouped(groups, cs)
    ensures n in groups ==>
              (set s | s in groups[n] :: OutcomeOf(s)) == OutcomesAbout(n, cs) && OutcomesAbout(n, cs) != {}
    ensures n !in groups ==> OutcomesAbout(n, cs) == {}
  {
    if n in groups {
      var mine, theirs := set s | s in groups[n] :: OutcomeOf(s), OutcomesAbout(n, cs);
      forall o | o in theirs ensures o in mine {
        var c :| c in cs && Speaks(c, n) && OutcomeOf(c.state) == o;
        assert c.state in groups[n];
      }
      forall o | o in mine ensures o in theirs {
        var s :| s in groups[n] && OutcomeOf(s) == o;
        var c :| c in cs && Speaks(c, n) && c.state == s;
      }
      assert OutcomeOf(groups[n][0]) in mine;
    }
  }

  lemma GroupedWorst(groups: map<string, seq<State>>, cs: seq<Contribution>, n: string)
    requires Grouped(groups, cs)
    ensures Worst(OutcomesAbout(n, cs))
            == if n in groups then Worst(set s | s in groups[n] :: OutcomeOf(s)) else NodeMissing
  {
    GroupedOutcomes(groups, cs, n);
  }

  /** The first loop of `node_accounting`: the states contributed about each node. */
  method GroupByNode(cs: seq<Contribution>) returns (groups: map<string, seq<State>>)
    ensures Grouped(groups, cs)
  {
    groups := map[];
    for i := 0 to |cs|
      invariant Grouped(groups, cs[..i])
    {
      GroupedStep(groups, cs[..i], cs[i]);
      assert cs[..i + 1] == cs[..i] + [cs[i]];
      var node := NodeOf(cs[i].subject);
      if node != "" {
        groups := groups[node := (if node in groups then groups[node] else []) + [cs[i].state]];
      }
    }
    assert cs[..|cs|] == cs;
  }

  /** `node_accounting` */
  method NodeAccounting(nodes: seq<string>, cs: seq<Contribution>) returns (out: map<string, NodeOutcome>)
    ensures out == Accounting(nodes, cs)
  {
    var groups := GroupByNode(cs);
    out := map[];
    for i := 0 to |nodes|
      invariant out == Accounting(nodes[..i], cs)
    {
      var node := nodes[i];
      assert nodes[..i + 1] == nodes[..i] + [node];
      GroupedWorst(groups, cs, node);
      if node !in groups {
        out := out[node := NodeMissing];
      } else {
        var outcomes := set s | s in groups[node] :: OutcomeOf(s);
        out := out[node := Worst(outcomes)];
      }
    }
    assert nodes[..|nodes|] == nodes;
  }

  // ------------------------------------------------------------------ the commitment

  datatype Binding = Binding(organization: string, target: string, cluster: string, operation: string, generation: int)

  datatype Commitment<K> = Commitment(version: string, bound: Binding, observations: map<K, Observation>,
                                      required: map<K, Observation>, contributions: map<K, seq<Contribution>>,
                                      nodes: seq<string>)

  /** `value` is absent for an unusable fact. */
  datatype Row<K> = Row(code: K, state: State, usable: bool, reason: Reason, privilege: string, scope: seq<string>,
                        value: Option<Value>)

  datatype Document<K> = Document(version: string, nodes: seq<string>, accounting: seq<(K, map<string, NodeOutcome>)>,
                                  bound: Binding, observations: seq<Row<K>>, required: seq<Row<K>>,
                                  contributions: seq<(K, seq<Contribution>)>)

  function RowOf<K>(code: K, o: Observation): Row<K> {
    var known := Usable(o) && o.value.Some?;
    Row(code, o.state, Usable(o), o.reason, o.privilege, if known then ScopeOf(o.value.value) else [],
        if known then Some(Canonical(o.value.value)) else None)
  }

  function Rows<K>(facts: map<K, Observation>, codes: seq<K>): (r: seq<Row<K>>)
    requires forall k :: k in codes ==> k in facts
  {
    seq(|codes|, i requires 0 <= i < |codes| => RowOf(codes[i], facts[codes[i]]))
  }

  function Sources<K>(cs: map<K, seq<Contribution>>, codes: seq<K>): seq<(K, seq<Contribution>)>
    requires forall k :: k in codes ==> k in cs
  {
    seq(|codes|, i requires 0 <= i < |codes| => (codes[i], cs[codes[i]]))
  }

  function AllAccounting<K>(nodes: seq<string>, cs: map<K, seq<Contribution>>,
                            codes: seq<K>): seq<(K, map<string, NodeOutcome>)>
    requires forall k :: k in codes ==> k in cs
  {
    seq(|codes|, i requires 0 <= i < |codes| => (codes[i], Accounting(nodes, cs[codes[i]])))
  }

  /** `FactCommitment.canonical` */
  ghost function DocumentOf<K(!new)>(c: Commitment<K>, sorted: set<K> -> seq<K>): Document<K>
    requires Lists(sorted)
  {
    Document(c.version, c.nodes, AllAccounting(c.nodes, c.contributions, sorted(c.contributions.Keys)), c.bound,
             Rows(c.observations, sorted(c.observations.Keys)), Rows(c.required, sorted(c.required.Keys)),
             Sources(c.contributions, sorted(c.contributions.Keys)))
  }

  /** `_fact_rows` */
  method FactRows<K(==, !new)>(facts: map<K, Observation>, sorted: set<K> -> seq<K>) returns (rows: seq<Row<K>>)
    requires Lists(sorted)
    ensures rows == Rows(facts, sorted(facts.Keys))
  {
    rows := [];
    var codes := sorted(facts.Keys);
    assert Listed(codes, facts.Keys);
    for i := 0 to |codes|
      invariant rows == Rows(facts, codes[..i])
    {
      rows := rows + [RowOf(codes[i], facts[codes[i]])];
    }
    assert codes[..|codes|] == codes;
  }

  // ------------------------------------------------------------------ what the commitment distinguishes

  ghost predicate Proper(o: Observation) {
    Constructible(o) && (o.value.Some? ==> WellKeyed(o.value.value))
  }

  /** Nothing about the fact differs but the order of mappings inside its value. */
  ghost predicate SameFact(o: Observation, p: Observation) {
    && o.state == p.state && o.reason == p.reason && o.privilege == p.privilege
    && (Usable(o) && o.value.Some? && p.value.Some? ==> MeaningOf(o.value.value) == MeaningOf(p.value.value))
  }

  ghost predicate SameFacts<K>(a: map<K, Observation>, b: map<K, Observation>) {
    a.Keys == b.Keys && forall k :: k in a ==> SameFact(a[k], b[k])
  }

  ghost predicate SameCommitment<K>(c: Commitment<K>, d: Commitment<K>) {
    && c.version == d.version && c.bound == d.bound && c.nodes == d.nodes && c.contributions == d.contributions
    && SameFacts(c.observations, d.observations) && SameFacts(c.required, d.required)
  }

  ghost predicate ProperFacts<K>(facts: map<K, Observation>) {
    forall k :: k in facts ==> Proper(facts[k])
  }

  lemma SameMeaningSameScope(v: Value, w: Value)
    requires MeaningOf(v) == MeaningOf(w)
    ensures ScopeOf(v) == ScopeOf(w)
  {
    if v.Dict? {
      assert Keys(v.entries) == EntriesMeaning(v.entries).Keys == Keys(w.entries);
    }
  }

  lemma RowIff<K>(k: K, o: Observation, p: Observation)
    requires Proper(o) && Proper(p)
    ensures RowOf(k, o) == RowOf(k, p) <==> SameFact(o, p)
  {
    if Usable(o) && Usable(p) {
      CanonicalIff(o.value.value, p.value.value);
      if MeaningOf(o.value.value) == MeaningOf(p.value.value) {
        SameMeaningSameScope(o.value.value, p.value.value);
      }
    }
  }

  /** A row restates the observation; the value and the names in it are there exactly for a usable one. */
  lemma RowSays<K>(code: K, o: Observation)
    requires Proper(o)
    ensures var row := RowOf(code, o);
            && row.code == code && row.state == o.state && row.reason == o.reason && row.privilege == o.privilege
            && (row.usable <==> o.state == Observed) && (row.value.Some? <==> o.state == Observed)
            && (o.state == Observed ==>
                  MeaningOf(row.value.value) == MeaningOf(o.value.value)
                  && forall k :: k in row.scope <==> o.value.value.Dict? && k in Keys(o.value.value.entries))
            && (o.state != Observed ==> row.scope == [])
  {
    if o.state == Observed { CanonicalKeepsMeaning(o.value.value); }
  }

  lemma SameCodesSameKeys<K(!new)>(a: set<K>, b: set<K>, sorted: set<K> -> seq<K>)
    requires Lists(sorted) && sorted(a) == sorted(b)
    ensures a == b
  {
    assert Listed(sorted(a), a) && Listed(sorted(b), b);
  }

  lemma SameRowsSameFacts<K>(a: map<K, Observation>, b: map<K, Observation>, codes: seq<K>)
    requires ProperFacts(a) && ProperFacts(b) && (forall k :: k in codes ==> k in a && k in b)
    ensures Rows(a, codes) == Rows(b, codes) <==> forall k :: k in codes ==> SameFact(a[k], b[k])
  {
    forall i | 0 <= i < |codes| ensures Rows(a, codes)[i] == Rows(b, codes)[i] <==> SameFact(a[codes[i]], b[codes[i]]) {
      RowIff(codes[i], a[codes[i]], b[codes[i]]);
    }
    if Rows(a, codes) == Rows(b, codes) {
      forall k | k in codes ensures SameFact(a[k], b[k]) {
        var i :| 0 <= i < |codes| && codes[i] == k;
        assert Rows(a, codes)[i] == Rows(b, codes)[i];
      }
    }
  }

  lemma SameRowsSameCodes<K>(a: map<K, Observation>, b: map<K, Observation>, x: seq<K>, y: seq<K>)
    requires (forall k :: k in x ==> k in a) && (forall k :: k in y ==> k in b)
    requires Rows(a, x) == Rows(b, y)
    ensures x == y
  {
    assert |x| == |Rows(a, x)| == |Rows(b, y)| == |y|;
    forall i | 0 <= i < |x| ensures x[i] == y[i] {
      assert Rows(a, x)[i].code == Rows(b, y)[i].code;
    }
  }

  lemma RowsIff<K(!new)>(a: map<K, Observation>, b: map<K, Observation>, sorted: set<K> -> seq<K>)
    requires Lists(sorted) && ProperFacts(a) && ProperFacts(b)
    ensures Rows(a, sorted(a.Keys)) == Rows(b, sorted(b.Keys)) <==> SameFacts(a, b)
  {
    var x, y := sorted(a.Keys), sorted(b.Keys);
    assert Listed(x, a.Keys) && Listed(y, b.Keys);
    if Rows(a, x) == Rows(b, y) {
      SameRowsSameCodes(a, b, x, y);
      SameCodesSameKeys(a.Keys, b.Keys, sorted);
    }
    if a.Keys == b.Keys {
      SameRowsSameFacts(a, b, x);
    }
  }

  lemma SourcesIff<K(!new)>(a: map<K, seq<Contribution>>, b: map<K, seq<Contribution>>, sorted: set<K> -> seq<K>)
    requires Lists(sorted)
    ensures Sources(a, sorted(a.Keys)) == Sources(b, sorted(b.Keys)) <==> a == b
  {
    var x, y := sorted(a.Keys), sorted(b.Keys);
    assert Listed(x, a.Keys) && Listed(y, b.Keys);
    if Sources(a, x) == Sources(b, y) {
      assert |x| == |Sources(a, x)| == |Sources(b, y)| == |y|;
      forall i | 0 <= i < |x| ensures x[i] == y[i] {
        assert Sources(a, x)[i].0 == Sources(b, y)[i].0;
      }
      SameCodesSameKeys(a.Keys, b.Keys, sorted);
      forall k | k in a ensures a[k] == b[k] {
        var i :| 0 <= i < |x| && x[i] == k;
        assert Sources(a, x)[i].1 == Sources(b, y)[i].1;
      }
    }
  }

  /**
   The committed document is the same exactly when nothing differs but mapping order inside values: any
   change to a usable value, a state, a reason, a privilege, a contribution, the node set or the binding
   changes the document, and nothing else does.
   */
  lemma DocumentIff<K(!new)>(c: Commitment<K>, d: Commitment<K>, sorted: set<K> -> seq<K>)
    requires Lists(sorted)
    requires ProperFacts(c.observations) && ProperFacts(c.required) && ProperFacts(d.observations)
             && ProperFacts(d.required)
    ensures DocumentOf(c, sorted) == DocumentOf(d, sorted) <==> SameCommitment(c, d)
  {
    RowsIff(c.observations, d.observations, sorted);
    RowsIff(c.required, d.required, sorted);
    SourcesIff(c.contributions, d.contributions, sorted);
  }

  /** The value beside a malformed observation is not committed: any two of them give one row. */
  lemma MalformedValueIsNotCommitted<K>(code: K, v: Option<Value>, w: Option<Value>, reason: Reason)
    ensures var a, b := Observation(ObservedMalformed, v, reason, ""), Observation(ObservedMalformed, w, reason, "");
            Constructible(a) && Constructible(b) && SameFact(a, b) && RowOf(code, a) == RowOf(code, b)
  {
  }
}
