/**
 The realm the reconciler of scripts/keycloak/secp_cli_client.py works on: JSON values, the comparison
 rules, and an identity provider that ignores sub-resources on a client update and adds fields of its own.
 Scopes and mappers are keyed by name, which a realm keeps unique.
 */
module KeycloakRealm {
  import opened Wrappers

  datatype Json = Null | Bool(b: bool) | Num(n: int) | Str(s: string) | Arr(items: seq<Json>)
      | Obj(fields: map<string, Json>)

  type Object = map<string, Json>

  /** `d.get(k)`: an absent key reads as null. */
  function Get(o: Object, k: string): Json {
    if k in o then o[k] else Null
  }

  // ------------------------------------------------------------------ comparison

  function Digits(n: nat): (s: string)
    ensures s != "" && '0' <= s[0] <= '9'
  {
    var d := ['0' + (n % 10) as char];
    if n < 10 then d else Digits(n / 10) + d
  }

  /** Python's `str` of a scalar. */
  function Text(v: Json): Option<string> {
    match v
    case Null => Some("None")
    case Bool(b) => Some(if b then "True" else "False")
    case Num(n) => Some(if n < 0 then "-" + Digits(-n) else Digits(n))
    case Str(s) => Some(s)
    case _ => None
  }

  /** `str(a) == str(b)`; lists and objects are compared as values. */
  predicate SameText(a: Json, b: Json) {
    if Text(a).Some? && Text(b).Some? then Text(a) == Text(b) else a == b
  }

  /** Every desired key has the desired text. */
  predicate Carries(current: Object, desired: Object) {
    forall k :: k in desired ==> SameText(Get(current, k), desired[k])
  }

  lemma SetCarries(base: Object, desired: Object)
    ensures Carries(base + desired, desired)
  {
  }

  /** `core_matches`. The sub-resource keys are not part of a core. */
  predicate CoreMatches(deployed: Object, core: Object) {
    forall k :: k in core ==>
      if k == "attributes" then
        Get(deployed, k).Obj? && core[k].Obj? && Carries(Get(deployed, k).fields, core[k].fields)
      else
        Get(deployed, k) == core[k]
  }

  /**
   A protocol mapper: the fields the tool compares. An absent field is null, a `config` that is no object is `None`.
   */
  datatype Mapper = Mapper(name: string, protocol: Json, kind: Json, consent: Json, config: Option<Object>)

  /** `_mapper_matches` */
  predicate MapperMatches(current: Mapper, desired: Mapper) {
    && current.protocol == desired.protocol && current.kind == desired.kind && current.consent == desired.consent
    && current.config.Some? && desired.config.Some? && Carries(current.config.value, desired.config.value)
  }

  // ------------------------------------------------------------------ the provider

  datatype Kind = Default | Optional

  /** What the provider contributes by itself, fixed but arbitrary. */
  datatype Provider = Provider(fields: Object, attributes: Object, config: Object,
                               protocol: Json, kind: Json, consent: Json,
                               defaults: set<string>, optionals: set<string>, mappers: map<string, Mapper>)

  datatype Realm = Realm(client: Option<Object>, defaults: set<string>, optionals: set<string>,
                         mappers: map<string, Mapper>, catalogue: set<string>, provider: Provider)

  function Assigned(r: Realm, kind: Kind): set<string> {
    if kind == Default then r.defaults else r.optionals
  }

  function WithAssigned(r: Realm, kind: Kind, names: set<string>): Realm {
    if kind == Default then r.(defaults := names) else r.(optionals := names)
  }

  datatype Request =
    | PostClient(core: Object)
    | PutClient(core: Object)
    | DeleteScope(kind: Kind, name: string)
    | PutScope(kind: Kind, name: string)
    | DeleteMapper(name: string)
    | PostMapper(mapper: Mapper)
    | PutMapper(mapper: Mapper)

  /** The attributes object, or an empty one. */
  function AttributesOf(client: Object): Object {
    if Get(client, "attributes").Obj? then Get(client, "attributes").fields else map[]
  }

  /** The client after an update: the given fields, attributes merged, and whatever the provider adds. */
  function Stored(p: Provider, before: Object, core: Object): Object {
    var merged := before + p.fields + core;
    if "attributes" in core && core["attributes"].Obj? then
      merged["attributes" := Obj(AttributesOf(before) + p.attributes + core["attributes"].fields)]
    else merged
  }

  function Or(v: Json, d: Json): Json {
    if v == Null then d else v
  }

  /** A mapper as the provider keeps it: unset fields take its defaults, its own config is added. */
  function Completed(p: Provider, m: Mapper): Mapper {
    Mapper(m.name, Or(m.protocol, p.protocol), Or(m.kind, p.kind), Or(m.consent, p.consent),
           Some(p.config + if m.config.Some? then m.config.value else map[]))
  }

  /**
   One mutating request. A client update leaves scopes and mappers alone; creating what is there and updating
   what is not there are refused.
   */
  function Serve(r: Realm, request: Request): Realm {
    match request
    case PostClient(core) =>
      if r.client.Some? then r
      else r.(client := Some(Stored(r.provider, map[], core)), defaults := r.provider.defaults,
              optionals := r.provider.optionals, mappers := r.provider.mappers)
    case PutClient(core) => if r.client.None? then r else r.(client := Some(Stored(r.provider, r.client.value, core)))
    case DeleteScope(kind, name) => WithAssigned(r, kind, Assigned(r, kind) - {name})
    case PutScope(kind, name) => if name in r.catalogue then WithAssigned(r, kind, Assigned(r, kind) + {name}) else r
    case DeleteMapper(name) => r.(mappers := r.mappers - {name})
    case PostMapper(m) =>
      if m.name in r.mappers then r else r.(mappers := r.mappers[m.name := Completed(r.provider, m)])
    case PutMapper(m) =>
      if m.name in r.mappers then r.(mappers := r.mappers[m.name := Completed(r.provider, m)]) else r
  }

  /** An update settles the core exactly when `attributes`, if given, is an object. */
  lemma StoredMatchesIff(p: Provider, before: Object, core: Object)
    ensures CoreMatches(Stored(p, before, core), core) <==> ("attributes" in core ==> core["attributes"].Obj?)
  {
    var stored := Stored(p, before, core);
    if "attributes" in core && core["attributes"].Obj? {
      SetCarries(AttributesOf(before) + p.attributes, core["attributes"].fields);
    }
    assert forall k :: k in core && k != "attributes" ==> Get(stored, k) == core[k];
  }

  /** Whether the provider's copy of a mapper will compare equal to the desired one. */
  predicate Settles(p: Provider, m: Mapper) {
    && (m.protocol != Null || p.protocol == Null) && (m.kind != Null || p.kind == Null)
    && (m.consent != Null || p.consent == Null) && m.config.Some?
  }

  lemma CompletedMatchesIff(p: Provider, m: Mapper)
    ensures MapperMatches(Completed(p, m), m) <==> Settles(p, m)
  {
    if m.config.Some? {
      SetCarries(p.config, m.config.value);
    }
  }
}
