/**
 What a run of the reconciler reports, action by action, and where a run that fails stops.
 */
module KeycloakReport {
  import opened Wrappers
  import opened Ordering
  import opened KeycloakRealm
  import opened KeycloakReconciler
  import opened KeycloakVerifier

  // ------------------------------------------------------------------ when two values read alike

  /** The number a decimal text stands for. */
  ghost function Value(s: string): int {
    if s == "" then 0 else 10 * Value(s[..|s| - 1]) + (s[|s| - 1] as int - '0' as int)
  }

  /** Digits without a leading zero that stand for `n`. */
  ghost predicate Decimal(s: string, n: nat) {
    && s != "" && (forall i :: 0 <= i < |s| ==> '0' <= s[i] <= '9') && (s[0] == '0' ==> |s| == 1)
    && Value(s) == n
  }

  ghost predicate Writes(s: string, n: int) {
    if n < 0 then s != "" && s[0] == '-' && Decimal(s[1..], -n) else Decimal(s, n)
  }

  /** `str(a) == str(b)`: equal, or one is the text Python writes for the other. */
  ghost predicate Alike(a: Json, b: Json) {
    match (a, b)
    case (Str(s), Null) => s == "None"
    case (Null, Str(s)) => s == "None"
    case (Str(s), Bool(x)) => s == if x then "True" else "False"
    case (Bool(x), Str(s)) => s == if x then "True" else "False"
    case (Str(s), Num(n)) => Writes(s, n)
    case (Num(n), Str(s)) => Writes(s, n)
    case (_, _) => a == b
  }

  lemma {:induction false} DigitsAreDecimal(n: nat)
    ensures Decimal(Digits(n), n) && (n > 0 ==> Digits(n)[0] != '0')
  {
    var d := ['0' + (n % 10) as char];
    if n < 10 {
      assert Digits(n) == d && d[..0] == "";
      assert Value(d[..0]) == 0;
    } else {
      DigitsAreDecimal(n / 10);
      var s := Digits(n / 10);
      assert Digits(n) == s + d && (s + d)[..|s|] == s;
    }
  }

  lemma {:induction false} ValueIsNatural(s: string)
    requires forall i :: 0 <= i < |s| ==> '0' <= s[i] <= '9'
    ensures Value(s) >= 0 && (s != "" && s[0] != '0' ==> Value(s) > 0)
  {
    if s != "" { ValueIsNatural(s[..|s| - 1]); }
  }

  lemma {:induction false} DecimalIsDigits(s: string, n: nat)
    requires Decimal(s, n)
    ensures s == Digits(n)
  {
    var front, last := s[..|s| - 1], s[|s| - 1];
    var m, c := Value(front), last as int - '0' as int;
    assert s == front + [last] && n == 10 * m + c;
    assert n / 10 == m && n % 10 == c && last == '0' + (n % 10) as char;
    if front == "" {
      assert m == 0 && Digits(n) == [last];
    } else {
      ValueIsNatural(front);
      DecimalIsDigits(front, m);
    }
  }

  lemma TextIsWritten(n: int, s: string)
    ensures Text(Num(n)) == Some(s) <==> Writes(s, n)
  {
    if n < 0 {
      DigitsAreDecimal(-n);
      assert ("-" + Digits(-n))[1..] == Digits(-n);
      if Writes(s, n) {
        DecimalIsDigits(s[1..], -n);
        assert s == [s[0]] + s[1..];
      }
    } else {
      DigitsAreDecimal(n);
      if Writes(s, n) { DecimalIsDigits(s, n); }
    }
  }

  /** The text of a number says which number it is, and is no word. */
  lemma WritesOne(s: string, m: int, n: int)
    requires Writes(s, m)
    ensures (Writes(s, n) <==> m == n) && s != "None" && s != "True" && s != "False"
  {
    assert s[0] == '-' || '0' <= s[0] <= '9';
  }

  lemma NumberTexts(m: int, n: int)
    ensures SameText(Num(m), Num(n)) <==> m == n
    ensures Text(Num(m)) != Some("None") && Text(Num(m)) != Some("True") && Text(Num(m)) != Some("False")
  {
    var s := Text(Num(m)).value;
    TextIsWritten(m, s);
    TextIsWritten(n, s);
    WritesOne(s, m, n);
  }

  /** What the comparison by text amounts to. */
  lemma SameTextIff(a: Json, b: Json)
    ensures SameText(a, b) <==> Alike(a, b)
  {
    match a
    case Num(m) =>
      NumberTexts(m, if b.Num? then b.n else 0);
      if b.Str? { TextIsWritten(m, b.s); }
    case Str(s) =>
      if b.Num? { TextIsWritten(b.n, s); }
    case _ =>
      if b.Num? { NumberTexts(b.n, b.n); }
  }

  // ------------------------------------------------------------------ when an action is due

  ghost predicate TextDiffers(current: Object, desired: Object) {
    exists k :: k in desired && !Alike(Get(current, k), desired[k])
  }

  ghost predicate KeyDiffers(deployed: Object, core: Object, k: string)
    requires k in core
  {
    if k == "attributes" then
      !Get(deployed, k).Obj? || !core[k].Obj? || TextDiffers(Get(deployed, k).fields, core[k].fields)
    else Get(deployed, k) != core[k]
  }

  ghost predicate MapperDiffers(current: Mapper, desired: Mapper) {
    || current.protocol != desired.protocol || current.kind != desired.kind || current.consent != desired.consent
    || current.config.None? || desired.config.None? || TextDiffers(current.config.value, desired.config.value)
  }

  ghost predicate Desired(a: Artifact, kind: Kind, n: string) {
    match kind
    case Default => n in a.defaultScopes
    case Optional => n in a.optionalScopes
  }

  ghost predicate Has(r: Realm, kind: Kind, n: string) {
    match kind
    case Default => n in r.defaults
    case Optional => n in r.optionals
  }

  ghost predicate DesiresMapper(a: Artifact, n: string) {
    exists i :: 0 <= i < |a.mappers| && a.mappers[i].name == n
  }

  /** The desired mapper of that name differs from the deployed one; of several of one name the last is desired. */
  ghost predicate Outdated(r: Realm, a: Artifact, n: string)
    requires n in r.mappers
  {
    exists i: nat :: LastOfName(a.mappers, i) && a.mappers[i].name == n && MapperDiffers(r.mappers[n], a.mappers[i])
  }

  /** What there is to do about a realm that has the client. */
  ghost predicate Due(r: Realm, a: Artifact, x: Action)
    requires r.client.Some?
  {
    match x
    case CreateClient => false
    case DryRunNote => false
    case UpdateClient => exists k :: k in a.core && KeyDiffers(r.client.value, a.core, k)
    case RemoveScope(kind, n) => Has(r, kind, n) && !Desired(a, kind, n)
    case AttachScope(kind, n) => Desired(a, kind, n) && !Has(r, kind, n)
    case RemoveMapper(n) => n in r.mappers && !DesiresMapper(a, n)
    case CreateMapper(n) => n !in r.mappers && DesiresMapper(a, n)
    case UpdateMapper(n) => n in r.mappers && Outdated(r, a, n)
  }

  // ------------------------------------------------------------------ what the phases report

  lemma {:induction false} ActionsAppend(a: seq<Step>, b: seq<Step>)
    ensures Actions(a + b) == Actions(a) + Actions(b)
  {
    if a == [] {
      assert a + b == b;
    } else {
      assert (a + b)[1..] == a[1..] + b;
      ActionsAppend(a[1..], b);
    }
  }

  lemma {:induction false} RemovalsReport(kind: Kind, names: seq<string>, x: Action)
    ensures x in Actions(Removals(kind, names)) <==> x.RemoveScope? && x.kind == kind && x.name in names
  {
    if names != [] {
      RemovalsReport(kind, names[1..], x);
      assert names == [names[0]] + names[1..];
    }
  }

  lemma {:induction false} AttachmentsReport(kind: Kind, names: seq<string>, catalogue: set<string>, x: Action)
    requires forall n :: n in names ==> n in catalogue
    ensures x in Actions(Attachments(kind, names, catalogue)) <==> x.AttachScope? && x.kind == kind && x.name in names
  {
    if names != [] {
      AttachmentsReport(kind, names[1..], catalogue, x);
      assert names == [names[0]] + names[1..];
    }
  }

  lemma {:induction false} MapperRemovalsReport(names: seq<string>, x: Action)
    ensures x in Actions(MapperRemovals(names)) <==> x.RemoveMapper? && x.name in names
  {
    if names != [] {
      MapperRemovalsReport(names[1..], x);
      assert names == [names[0]] + names[1..];
    }
  }

  lemma FixesHead(names: seq<string>, existing: set<string>, right: set<string>, wanted: map<string, Mapper>)
    requires names != [] && forall n :: n in names ==> n in wanted
    ensures var n := names[0];
            Actions(MapperFixes(names, existing, right, wanted))
            == (if n in right then [] else if n in existing then [UpdateMapper(n)] else [CreateMapper(n)])
               + Actions(MapperFixes(names[1..], existing, right, wanted))
  {
    var n, rest := names[0], MapperFixes(names[1..], existing, right, wanted);
    var fixes := MapperFixes(names, existing, right, wanted);
    if n in right {
      assert fixes == rest;
    } else {
      assert fixes[1..] == rest;
    }
  }

  lemma {:induction false} FixesReport(names: seq<string>, existing: set<string>, right: set<string>,
                                       wanted: map<string, Mapper>, x: Action)
    requires forall n :: n in names ==> n in wanted
    ensures x in Actions(MapperFixes(names, existing, right, wanted)) <==>
            || (x.CreateMapper? && x.name in names && x.name !in right && x.name !in existing)
            || (x.UpdateMapper? && x.name in names && x.name !in right && x.name in existing)
  {
    if names != [] {
      FixesReport(names[1..], existing, right, wanted, x);
      FixesHead(names, existing, right, wanted);
      assert names == [names[0]] + names[1..];
    }
  }

  ghost predicate ScopeDue(r: Realm, a: Artifact, kind: Kind, x: Action) {
    || (x.RemoveScope? && x.kind == kind && Has(r, kind, x.name) && !Desired(a, kind, x.name))
    || (x.AttachScope? && x.kind == kind && Desired(a, kind, x.name) && !Has(r, kind, x.name))
  }

  lemma ScopesReport(r: Realm, a: Artifact, kind: Kind, sorted: Listing, x: Action)
    requires Lists(sorted) && ScopesExist(r, a, kind)
    ensures x in Actions(ScopeSteps(r, a, kind, sorted)) <==> ScopeDue(r, a, kind, x)
  {
    var surplus, missing := Assigned(r, kind) - Wanted(a, kind), Wanted(a, kind) - Assigned(r, kind);
    assert Listed(sorted(surplus), surplus) && Listed(sorted(missing), missing);
    ActionsAppend(Removals(kind, sorted(surplus)), Attachments(kind, sorted(missing), r.catalogue));
    RemovalsReport(kind, sorted(surplus), x);
    AttachmentsReport(kind, sorted(missing), r.catalogue, x);
  }

  lemma CarriesIff(current: Object, desired: Object)
    ensures Carries(current, desired) <==> !TextDiffers(current, desired)
  {
    forall k | k in desired ensures SameText(Get(current, k), desired[k]) <==> Alike(Get(current, k), desired[k]) {
      SameTextIff(Get(current, k), desired[k]);
    }
  }

  lemma MatchesIffNotDiffers(current: Mapper, desired: Mapper)
    ensures MapperMatches(current, desired) <==> !MapperDiffers(current, desired)
  {
    if current.config.Some? && desired.config.Some? { CarriesIff(current.config.value, desired.config.value); }
  }

  lemma WantedIsDesired(a: Artifact, n: string)
    ensures n in ByName(a.mappers) <==> DesiresMapper(a, n)
  {
    if i :| 0 <= i < |a.mappers| && a.mappers[i].name == n { assert a.mappers[i] in a.mappers; }
    if n in ByName(a.mappers) { var i :| 0 <= i < |a.mappers| && a.mappers[i] == ByName(a.mappers)[n]; }
  }

  lemma LastIsByName(mappers: seq<Mapper>, i: nat)
    requires LastOfName(mappers, i)
    ensures mappers[i].name in ByName(mappers) && ByName(mappers)[mappers[i].name] == mappers[i]
  {
    assert mappers[i] in mappers;
    var j := ByNameIsLast(mappers, mappers[i].name);
    assert i == j || i < j || j < i;
  }

  lemma OutdatedIff(r: Realm, a: Artifact, n: string)
    requires n in r.mappers && n in ByName(a.mappers)
    ensures Outdated(r, a, n) <==> MapperDiffers(r.mappers[n], ByName(a.mappers)[n])
  {
    var i := ByNameIsLast(a.mappers, n);
    if Outdated(r, a, n) {
      var j: nat :| LastOfName(a.mappers, j) && a.mappers[j].name == n && MapperDiffers(r.mappers[n], a.mappers[j]);
      LastIsByName(a.mappers, j);
    }
  }

  /** Right, not deployed and outdated, for one desired name. */
  lemma RightIff(r: Realm, a: Artifact, n: string)
    ensures DesiresMapper(a, n) && n !in Right(r.mappers, ByName(a.mappers))
            <==> (n !in r.mappers && DesiresMapper(a, n)) || (n in r.mappers && Outdated(r, a, n))
  {
    WantedIsDesired(a, n);
    if n in ByName(a.mappers) {
      if n in r.mappers {
        OutdatedIff(r, a, n);
        MatchesIffNotDiffers(r.mappers[n], ByName(a.mappers)[n]);
      }
    }
  }

  ghost predicate MapperDue(r: Realm, a: Artifact, x: Action) {
    || (x.RemoveMapper? && x.name in r.mappers && !DesiresMapper(a, x.name))
    || (x.CreateMapper? && x.name !in r.mappers && DesiresMapper(a, x.name))
    || (x.UpdateMapper? && x.name in r.mappers && Outdated(r, a, x.name))
  }

  lemma MappersReport(r: Realm, a: Artifact, sorted: Listing, x: Action)
    requires Lists(sorted)
    ensures x in Actions(MapperSteps(r, a, sorted)) <==> MapperDue(r, a, x)
  {
    var wanted := ByName(a.mappers);
    var surplus, right := r.mappers.Keys - wanted.Keys, Right(r.mappers, wanted);
    assert Listed(sorted(surplus), surplus) && Listed(sorted(wanted.Keys), wanted.Keys);
    var removals := MapperRemovals(sorted(surplus));
    var fixes := MapperFixes(sorted(wanted.Keys), r.mappers.Keys, right, wanted);
    ActionsAppend(removals, fixes);
    MapperRemovalsReport(sorted(surplus), x);
    FixesReport(sorted(wanted.Keys), r.mappers.Keys, right, wanted, x);
    if x.RemoveMapper? || x.CreateMapper? || x.UpdateMapper? {
      WantedIsDesired(a, x.name);
      RightIff(r, a, x.name);
    }
  }

  ghost predicate CoreDue(r: Realm, a: Artifact, x: Action)
    requires r.client.Some?
  {
    x == UpdateClient && exists k :: k in a.core && KeyDiffers(r.client.value, a.core, k)
  }

  lemma CoreIff(deployed: Object, core: Object)
    ensures CoreMatches(deployed, core) <==> !exists k :: k in core && KeyDiffers(deployed, core, k)
  {
    if "attributes" in core && Get(deployed, "attributes").Obj? && core["attributes"].Obj? {
      CarriesIff(Get(deployed, "attributes").fields, core["attributes"].fields);
    }
  }

  lemma CoreReports(r: Realm, a: Artifact, x: Action)
    requires r.client.Some?
    ensures x in Actions(CoreSteps(r, a)) <==> CoreDue(r, a, x)
  {
    CoreIff(r.client.value, a.core);
    if CoreMatches(r.client.value, a.core) {
      assert CoreSteps(r, a) == [];
    } else {
      assert CoreSteps(r, a) == [Step(UpdateClient, PutClient(a.core))];
    }
  }

  /** The report of a dry run that finishes, phase after phase. */
  lemma ReportIsPhases(r: Realm, a: Artifact, sorted: Listing)
    requires Lists(sorted) && r.client.Some? && RunOn(r, a, false, sorted).ok
    ensures ScopesExist(r, a, Default) && ScopesExist(r, a, Optional)
    ensures RunOn(r, a, false, sorted).actions
            == Actions(CoreSteps(r, a)) + Actions(ScopeSteps(r, a, Default, sorted))
               + Actions(ScopeSteps(r, a, Optional, sorted)) + Actions(MapperSteps(r, a, sorted))
  {
    DryRunPhases(r, a, sorted);
  }

  lemma InPhases(r: Realm, a: Artifact, sorted: Listing, x: Action)
    requires Lists(sorted) && r.client.Some? && RunOn(r, a, false, sorted).ok
    ensures ScopesExist(r, a, Default) && ScopesExist(r, a, Optional)
    ensures x in RunOn(r, a, false, sorted).actions <==>
            || x in Actions(CoreSteps(r, a)) || x in Actions(ScopeSteps(r, a, Default, sorted))
            || x in Actions(ScopeSteps(r, a, Optional, sorted)) || x in Actions(MapperSteps(r, a, sorted))
  {
    ReportIsPhases(r, a, sorted);
  }

  lemma DueIff(r: Realm, a: Artifact, x: Action)
    requires r.client.Some?
    ensures Due(r, a, x) <==>
            CoreDue(r, a, x) || ScopeDue(r, a, Default, x) || ScopeDue(r, a, Optional, x) || MapperDue(r, a, x)
  {
    match x
    case RemoveScope(kind, _) => assert kind == Default || kind == Optional;
    case AttachScope(kind, _) => assert kind == Default || kind == Optional;
    case _ =>
  }

  lemma DryReportedIffDue(r: Realm, a: Artifact, sorted: Listing, x: Action)
    requires Lists(sorted) && r.client.Some? && RunOn(r, a, false, sorted).ok
    ensures x in RunOn(r, a, false, sorted).actions <==> Due(r, a, x)
  {
    DueIff(r, a, x);
    InPhases(r, a, sorted, x);
    CoreReports(r, a, x);
    ScopesReport(r, a, Default, sorted, x);
    ScopesReport(r, a, Optional, sorted, x);
    MappersReport(r, a, sorted, x);
  }

  /** A run reports exactly what is due. */
  lemma ReportedIffDue(r: Realm, a: Artifact, sorted: Listing, write: bool, x: Action)
    requires Lists(sorted) && r.client.Some? && RunOn(r, a, write, sorted).ok
    ensures x in RunOn(r, a, write, sorted).actions <==> Due(r, a, x)
  {
    DryRunIsFaithful(r, a, sorted);
    DryReportedIffDue(r, a, sorted, x);
  }

  // ------------------------------------------------------------------ each action once, in phase order

  lemma AppendNoDuplicates(a: seq<Action>, b: seq<Action>)
    requires NoDuplicates(a) && NoDuplicates(b) && forall x :: x in a ==> x !in b
    ensures NoDuplicates(a + b)
  {
    forall i, j | 0 <= i < |a| && 0 <= j < |b| ensures a[i] != b[j] { assert a[i] in a; }
  }

  lemma TailNoDuplicates(names: seq<string>)
    requires names != [] && NoDuplicates(names)
    ensures NoDuplicates(names[1..]) && names[0] !in names[1..]
  {
  }

  lemma {:induction false} RemovalsOnce(kind: Kind, names: seq<string>)
    requires NoDuplicates(names)
    ensures NoDuplicates(Actions(Removals(kind, names)))
  {
    if names != [] {
      TailNoDuplicates(names);
      RemovalsOnce(kind, names[1..]);
      RemovalsReport(kind, names[1..], RemoveScope(kind, names[0]));
      AppendNoDuplicates([RemoveScope(kind, names[0])], Actions(Removals(kind, names[1..])));
    }
  }

  lemma {:induction false} AttachmentsOnce(kind: Kind, names: seq<string>, catalogue: set<string>)
    requires NoDuplicates(names) && forall n :: n in names ==> n in catalogue
    ensures NoDuplicates(Actions(Attachments(kind, names, catalogue)))
  {
    if names != [] {
      TailNoDuplicates(names);
      AttachmentsOnce(kind, names[1..], catalogue);
      AttachmentsReport(kind, names[1..], catalogue, AttachScope(kind, names[0]));
      AppendNoDuplicates([AttachScope(kind, names[0])], Actions(Attachments(kind, names[1..], catalogue)));
    }
  }

  lemma {:induction false} MapperRemovalsOnce(names: seq<string>)
    requires NoDuplicates(names)
    ensures NoDuplicates(Actions(MapperRemovals(names)))
  {
    if names != [] {
      TailNoDuplicates(names);
      MapperRemovalsOnce(names[1..]);
      MapperRemovalsReport(names[1..], RemoveMapper(names[0]));
      AppendNoDuplicates([RemoveMapper(names[0])], Actions(MapperRemovals(names[1..])));
    }
  }

  lemma {:induction false} FixesOnce(names: seq<string>, existing: set<string>, right: set<string>,
                                     wanted: map<string, Mapper>)
    requires NoDuplicates(names) && forall n :: n in names ==> n in wanted
    ensures NoDuplicates(Actions(MapperFixes(names, existing, right, wanted)))
  {
    if names != [] {
      TailNoDuplicates(names);
      var rest := Actions(MapperFixes(names[1..], existing, right, wanted));
      FixesOnce(names[1..], existing, right, wanted);
      FixesHead(names, existing, right, wanted);
      assert [] + rest == rest;
      FixesReport(names[1..], existing, right, wanted, CreateMapper(names[0]));
      FixesReport(names[1..], existing, right, wanted, UpdateMapper(names[0]));
      AppendNoDuplicates([CreateMapper(names[0])], rest);
      AppendNoDuplicates([UpdateMapper(names[0])], rest);
    }
  }

  /** Core, default scopes, optional scopes, mappers. */
  ghost function Phase(x: Action): nat {
    match x
    case CreateClient => 0
    case UpdateClient => 0
    case RemoveScope(kind, _) => if kind == Default then 1 else 3
    case AttachScope(kind, _) => if kind == Default then 2 else 4
    case RemoveMapper(_) => 5
    case CreateMapper(_) => 6
    case UpdateMapper(_) => 6
    case DryRunNote => 7
  }

  /** No action of a later phase comes before one of an earlier phase, removals before attachments. */
  ghost predicate Phased(actions: seq<Action>) {
    forall i, j :: 0 <= i < j < |actions| ==> Phase(actions[i]) <= Phase(actions[j])
  }

  lemma AppendPhased(a: seq<Action>, b: seq<Action>)
    requires Phased(a) && Phased(b) && forall x, y :: x in a && y in b ==> Phase(x) <= Phase(y)
    ensures Phased(a + b)
  {
    forall i, j | 0 <= i < |a| && 0 <= j < |b| ensures Phase(a[i]) <= Phase(b[j]) { assert a[i] in a && b[j] in b; }
  }

  /** One part of a report after another: the phases of each lie in one range. */
  ghost predicate PhaseIn(actions: seq<Action>, low: nat, high: nat) {
    forall x :: x in actions ==> low <= Phase(x) <= high
  }

  lemma OnePhase(actions: seq<Action>, p: nat)
    requires PhaseIn(actions, p, p)
    ensures Phased(actions)
  {
    forall i, j | 0 <= i < j < |actions| ensures Phase(actions[i]) <= Phase(actions[j]) {
      assert actions[i] in actions && actions[j] in actions;
    }
  }

  lemma JoinPhases(a: seq<Action>, b: seq<Action>, low: nat, middle: nat, high: nat)
    requires Phased(a) && Phased(b) && PhaseIn(a, low, middle) && PhaseIn(b, middle + 1, high)
    requires NoDuplicates(a) && NoDuplicates(b) && low <= middle < high
    ensures Phased(a + b) && PhaseIn(a + b, low, high) && NoDuplicates(a + b)
  {
    AppendPhased(a, b);
    AppendNoDuplicates(a, b);
  }

  lemma ScopesInOrder(r: Realm, a: Artifact, kind: Kind, sorted: Listing)
    requires Lists(sorted) && ScopesExist(r, a, kind)
    ensures var p, part := if kind == Default then 1 else 3, Actions(ScopeSteps(r, a, kind, sorted));
            Phased(part) && PhaseIn(part, p, p + 1) && NoDuplicates(part)
  {
    var p := if kind == Default then 1 else 3;
    var surplus, missing := Assigned(r, kind) - Wanted(a, kind), Wanted(a, kind) - Assigned(r, kind);
    assert Listed(sorted(surplus), surplus) && Listed(sorted(missing), missing);
    var removals, attachments := Removals(kind, sorted(surplus)), Attachments(kind, sorted(missing), r.catalogue);
    ActionsAppend(removals, attachments);
    RemovalsOnce(kind, sorted(surplus));
    AttachmentsOnce(kind, sorted(missing), r.catalogue);
    forall x ensures x in Actions(removals) ==> Phase(x) == p { RemovalsReport(kind, sorted(surplus), x); }
    forall x ensures x in Actions(attachments) ==> Phase(x) == p + 1 {
      AttachmentsReport(kind, sorted(missing), r.catalogue, x);
    }
    OnePhase(Actions(removals), p);
    OnePhase(Actions(attachments), p + 1);
    JoinPhases(Actions(removals), Actions(attachments), p, p, p + 1);
  }

  lemma NamedMappersInOrder(surplus: seq<string>, names: seq<string>, existing: set<string>, right: set<string>,
                            wanted: map<string, Mapper>)
    requires NoDuplicates(surplus) && NoDuplicates(names) && forall n :: n in names ==> n in wanted
    ensures var part := Actions(MapperRemovals(surplus) + MapperFixes(names, existing, right, wanted));
            Phased(part) && PhaseIn(part, 5, 6) && NoDuplicates(part)
  {
    var removals, fixes := MapperRemovals(surplus), MapperFixes(names, existing, right, wanted);
    ActionsAppend(removals, fixes);
    MapperRemovalsOnce(surplus);
    FixesOnce(names, existing, right, wanted);
    forall x ensures x in Actions(removals) ==> Phase(x) == 5 { MapperRemovalsReport(surplus, x); }
    forall x ensures x in Actions(fixes) ==> Phase(x) == 6 { FixesReport(names, existing, right, wanted, x); }
    OnePhase(Actions(removals), 5);
    OnePhase(Actions(fixes), 6);
    JoinPhases(Actions(removals), Actions(fixes), 5, 5, 6);
  }

  lemma MappersInOrder(r: Realm, a: Artifact, sorted: Listing)
    requires Lists(sorted)
    ensures var part := Actions(MapperSteps(r, a, sorted));
            Phased(part) && PhaseIn(part, 5, 6) && NoDuplicates(part)
  {
    var wanted := ByName(a.mappers);
    var surplus := r.mappers.Keys - wanted.Keys;
    assert Listed(sorted(surplus), surplus) && Listed(sorted(wanted.Keys), wanted.Keys);
    NamedMappersInOrder(sorted(surplus), sorted(wanted.Keys), r.mappers.Keys, Right(r.mappers, wanted), wanted);
  }

  /** No action is reported twice, and they come phase by phase. */
  lemma ReportedOnceInOrder(r: Realm, a: Artifact, sorted: Listing, write: bool)
    requires Lists(sorted) && r.client.Some? && RunOn(r, a, write, sorted).ok
    ensures NoDuplicates(RunOn(r, a, write, sorted).actions) && Phased(RunOn(r, a, write, sorted).actions)
  {
    DryRunIsFaithful(r, a, sorted);
    ReportIsPhases(r, a, sorted);
    var core := Actions(CoreSteps(r, a));
    forall x ensures x in core ==> Phase(x) == 0 { CoreReports(r, a, x); }
    OnePhase(core, 0);
    ScopesInOrder(r, a, Default, sorted);
    ScopesInOrder(r, a, Optional, sorted);
    MappersInOrder(r, a, sorted);
    var defaults, optionals := Actions(ScopeSteps(r, a, Default, sorted)), Actions(ScopeSteps(r, a, Optional, sorted));
    JoinPhases(core, defaults, 0, 0, 2);
    JoinPhases(core + defaults, optionals, 0, 2, 4);
    JoinPhases(core + defaults + optionals, Actions(MapperSteps(r, a, sorted)), 0, 4, 6);
  }

  // ------------------------------------------------------------------ a run that fails

  /** Attachments add nothing but what they name. */
  lemma {:induction false} AttachmentsAdd(r: Realm, kind: Kind, names: seq<string>) returns (more: set<string>)
    ensures ServeAll(r, Attachments(kind, names, r.catalogue)) == WithAssigned(r, kind, Assigned(r, kind) + more)
    ensures forall n :: n in more ==> n in names && n in r.catalogue
    decreases |names|
  {
    if names == [] || names[0] !in r.catalogue {
      more := {};
      assert Assigned(r, kind) + more == Assigned(r, kind);
    } else {
      var r' := Serve(r, PutScope(kind, names[0]));
      var rest := AttachmentsAdd(r', kind, names[1..]);
      more := {names[0]} + rest;
      assert Attachments(kind, names, r.catalogue)[1..] == Attachments(kind, names[1..], r.catalogue);
      assert Assigned(r', kind) + rest == Assigned(r, kind) + more;
    }
  }

  /**
   A scope phase, finished or not, has removed every surplus scope, attached desired ones and touched nothing else.
   */
  lemma ScopesLeft(r: Realm, a: Artifact, kind: Kind, sorted: Listing)
    requires Lists(sorted)
    ensures var r' := ServeAll(r, ScopeSteps(r, a, kind, sorted));
            && r' == WithAssigned(r, kind, Assigned(r', kind))
            && Assigned(r, kind) * Wanted(a, kind) <= Assigned(r', kind) <= Wanted(a, kind)
            && Assigned(r', kind) <= Assigned(r, kind) + r.catalogue
  {
    var surplus, missing := Assigned(r, kind) - Wanted(a, kind), Wanted(a, kind) - Assigned(r, kind);
    assert Listed(sorted(surplus), surplus) && Listed(sorted(missing), missing);
    ServeAllAppend(r, Removals(kind, sorted(surplus)), Attachments(kind, sorted(missing), r.catalogue));
    RemovalsRemove(r, kind, sorted(surplus));
    var r1 := ServeAll(r, Removals(kind, sorted(surplus)));
    var more := AttachmentsAdd(r1, kind, sorted(missing));
  }

  /**
   A write run fails exactly when a desired scope neither is assigned nor exists.  It has then removed the
   surplus scopes of the phases it reached, attached desired ones only, and not looked at any mapper.
   */
  lemma FailedRunStops(r: Realm, a: Artifact, sorted: Listing)
    requires Lists(sorted)
    ensures var r1, end := ServeAll(r, CoreSteps(r, a)), RunOn(r, a, true, sorted);
            && (end.ok <==> ScopesExist(r1, a, Default) && ScopesExist(r1, a, Optional))
            && (!end.ok ==> && end.realm.mappers == Found(r) && end.realm.client == r1.client
                            && r1.defaults * Wanted(a, Default) <= end.realm.defaults <= Wanted(a, Default))
            && (!ScopesExist(r1, a, Default) ==> end.realm.optionals == r1.optionals)
            && (!end.ok && ScopesExist(r1, a, Default) ==>
                  end.realm.defaults == Wanted(a, Default)
                  && r1.optionals * Wanted(a, Optional) <= end.realm.optionals <= Wanted(a, Optional))
  {
    var o1 := CorePhase(r, a, true);
    CoreServed(r, a);
    ScopesLeft(o1.realm, a, Default, sorted);
    if ScopesExist(o1.realm, a, Default) {
      ScopesServed(o1.realm, a, Default, sorted);
      var o2 := ScopePhase(o1, a, Default, true, sorted);
      ScopesLeft(o2.realm, a, Optional, sorted);
    }
  }
}
