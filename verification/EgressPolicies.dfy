/** Compiling egress policies and checking every enabled Endpoint against the policy of its Upstream. */
module EgressPolicies {
  import opened Basics
  import opened Indexing

  datatype ErrorCode =
    | DuplicatePolicy | DuplicatePolicyName | DuplicateUpstream | DuplicateEndpoint
    | InvalidPolicyJson | InvalidPolicyValue
    | EnabledUpstreamMissingPolicy | MissingReferencedPolicy | MissingEndpointUpstream | EndpointUrlRejected

  datatype Error = Error(code: ErrorCode, subject: string)

  datatype RedirectMode = Deny | SameOrigin | Revalidate

  datatype Redirects = NoRedirects | SameOriginUpTo(max: nat) | RevalidateUpTo(max: nat)

  type Port = p: int | 0 <= p < 0x1_0000

  // Every number a port list can hold is a port.
  function EveryPort(p: Port): Option<Port> { Some(p) }

  // A JSON allowlist is either its array of values or, when it has another shape, nothing.
  datatype PolicyRow = PolicyRow(
    id: string, name: string,
    schemes: Option<seq<string>>, hosts: Option<seq<string>>, ports: Option<seq<Port>>, cidrs: Option<seq<string>>,
    redirectMode: RedirectMode, maxRedirects: int
  )

  datatype Upstream = Upstream(id: string, enabled: bool, policyId: Option<string>)
  datatype Endpoint = Endpoint(id: string, upstreamId: string, enabled: bool, url: string)

  datatype Configuration = Configuration(policies: seq<PolicyRow>, upstreams: seq<Upstream>, endpoints: seq<Endpoint>)

  datatype Policy = Policy(
    id: string, name: string,
    schemes: set<string>, hosts: set<string>, ports: set<Port>, cidrs: set<string>,
    redirects: Redirects
  )

  /** The checks made by types that are not part of this model: value parsers, the policy constructor and the URL check. */
  datatype Rules = Rules(
    scheme: string -> Option<string>, host: string -> Option<string>, cidr: string -> Option<string>,
    admits: Policy -> bool,
    accepts: (Policy, string) -> bool
  )

  function PolicyId(p: PolicyRow): string { p.id }
  function PolicyName(p: PolicyRow): string { p.name }
  function UpstreamId(u: Upstream): string { u.id }
  function EndpointId(e: Endpoint): string { e.id }

  // ---- Allowlists ----

  /** Every value parses and no two values parse to the same thing, however they were spelled. */
  ghost predicate Allowable<A, B>(values: seq<A>, parse: A -> Option<B>) {
    && (forall i :: 0 <= i < |values| ==> parse(values[i]).Some?)
    && (forall i, j :: 0 <= i < j < |values| ==> parse(values[i]) != parse(values[j]))
  }

  function Parsed<A, B(==)>(values: seq<A>, parse: A -> Option<B>): set<B> {
    set i | 0 <= i < |values| && parse(values[i]).Some? :: parse(values[i]).value
  }

  method ParseAllowlist<A, B(==)>(values: seq<A>, parse: A -> Option<B>) returns (r: Option<set<B>>)
    ensures r.Some? <==> Allowable(values, parse)
    ensures r.Some? ==> r.value == Parsed(values, parse) && |r.value| == |values|
  {
    var parsed: set<B> := {};
    for i := 0 to |values|
      invariant Allowable(values[..i], parse)
      invariant parsed == Parsed(values[..i], parse) && |parsed| == i
    {
      var value := parse(values[i]);
      ParsedNext(values, parse, i);
      if value.None? {
        return None;
      }
      if value.value in parsed {
        return None;
      }
      parsed := parsed + {value.value};
    }
    assert values[..|values|] == values;
    r := Some(parsed);
  }

  lemma ParsedNext<A, B>(values: seq<A>, parse: A -> Option<B>, i: nat)
    requires i < |values| && Allowable(values[..i], parse)
    ensures var v := parse(values[i]);
            && (v.None? ==> !Allowable(values, parse))
            && (v.Some? ==> Parsed(values[..i + 1], parse) == Parsed(values[..i], parse) + {v.value})
            && (v.Some? && v.value in Parsed(values[..i], parse) ==> !Allowable(values, parse))
            && (v.Some? && v.value !in Parsed(values[..i], parse) ==> Allowable(values[..i + 1], parse))
  {
    var before, after := values[..i], values[..i + 1];
    assert forall k :: 0 <= k < i ==> before[k] == values[k] && after[k] == values[k];
    assert after[i] == values[i];
    var v := parse(values[i]);
    if v.Some? {
      forall x
        ensures x in Parsed(after, parse) <==> x in Parsed(before, parse) || x == v.value
      {
        if x in Parsed(before, parse) {
          var k :| 0 <= k < i && parse(before[k]).Some? && parse(before[k]).value == x;
          assert parse(after[k]).value == x;
        }
        if x == v.value { assert parse(after[i]).value == x; }
      }
      if v.value in Parsed(before, parse) {
        var k :| 0 <= k < i && parse(before[k]).Some? && parse(before[k]).value == v.value;
        assert parse(values[k]) == parse(values[i]);
      } else {
        forall k | 0 <= k < i
          ensures parse(after[k]) != parse(after[i])
        {
          assert parse(before[k]).value in Parsed(before, parse);
        }
      }
    }
  }

  // ---- One policy ----

  function RedirectsOf(row: PolicyRow): Option<Redirects> {
    if !(0 <= row.maxRedirects <= 255) then None
    else
      match row.redirectMode
      case Deny => if row.maxRedirects == 0 then Some(NoRedirects) else None
      case SameOrigin => Some(SameOriginUpTo(row.maxRedirects))
      case Revalidate => Some(RevalidateUpTo(row.maxRedirects))
  }

  ghost predicate ListAllowable<A, B>(list: Option<seq<A>>, parse: A -> Option<B>) {
    list.Some? && Allowable(list.value, parse)
  }

  function ListParsed<A, B(==)>(list: Option<seq<A>>, parse: A -> Option<B>): set<B> {
    if list.Some? then Parsed(list.value, parse) else {}
  }

  /** The policy a row describes, if every list is allowable, the redirects make sense and the constructor admits it. */
  ghost function PolicyOf(rules: Rules, row: PolicyRow): Option<Policy> {
    if && ListAllowable(row.schemes, rules.scheme) && ListAllowable(row.hosts, rules.host)
       && ListAllowable(row.ports, EveryPort) && ListAllowable(row.cidrs, rules.cidr)
       && RedirectsOf(row).Some?
    then
      var policy := Policy(row.id, row.name, ListParsed(row.schemes, rules.scheme), ListParsed(row.hosts, rules.host),
                           ListParsed(row.ports, EveryPort), ListParsed(row.cidrs, rules.cidr), RedirectsOf(row).value);
      if rules.admits(policy) then Some(policy) else None
    else None
  }

  ghost predicate Holds<A, B(!new)>(result: set<B>, list: Option<seq<A>>, parse: A -> Option<B>) {
    list.Some? && forall x :: x in result <==> exists i :: 0 <= i < |list.value| && parse(list.value[i]) == Some(x)
  }

  predicate RedirectsFit(row: PolicyRow, redirects: Redirects) {
    && 0 <= row.maxRedirects <= 255
    && match row.redirectMode
       case Deny => row.maxRedirects == 0 && redirects == NoRedirects
       case SameOrigin => redirects == SameOriginUpTo(row.maxRedirects)
       case Revalidate => redirects == RevalidateUpTo(row.maxRedirects)
  }

  /** Each list of the row feeds its own field, and the redirect mode and limit are the row's. */
  ghost predicate Describes(rules: Rules, row: PolicyRow, p: Policy) {
    && p.id == row.id && p.name == row.name
    && Holds(p.schemes, row.schemes, rules.scheme) && Holds(p.hosts, row.hosts, rules.host)
    && Holds(p.ports, row.ports, EveryPort) && Holds(p.cidrs, row.cidrs, rules.cidr)
    && RedirectsFit(row, p.redirects)
  }

  lemma ListHolds<A, B(!new)>(list: Option<seq<A>>, parse: A -> Option<B>)
    requires list.Some?
    ensures Holds(ListParsed(list, parse), list, parse)
  {
  }

  lemma HoldsOnce<A, B(!new)>(a: set<B>, b: set<B>, list: Option<seq<A>>, parse: A -> Option<B>)
    requires Holds(a, list, parse) && Holds(b, list, parse)
    ensures a == b
  {
  }

  /** A row compiles to a policy exactly when the policy is the one it describes, its lists hold no value twice and no
      value that does not parse, and the policy constructor admits it. */
  lemma PolicyMeans(rules: Rules, row: PolicyRow, p: Policy)
    ensures PolicyOf(rules, row) == Some(p) <==>
            && Describes(rules, row, p) && rules.admits(p)
            && ListAllowable(row.schemes, rules.scheme) && ListAllowable(row.hosts, rules.host)
            && ListAllowable(row.ports, EveryPort) && ListAllowable(row.cidrs, rules.cidr)
  {
    hide Allowable, Parsed, Holds;
    if && ListAllowable(row.schemes, rules.scheme) && ListAllowable(row.hosts, rules.host)
       && ListAllowable(row.ports, EveryPort) && ListAllowable(row.cidrs, rules.cidr)
    {
      ListHolds(row.schemes, rules.scheme);
      ListHolds(row.hosts, rules.host);
      ListHolds(row.ports, EveryPort);
      ListHolds(row.cidrs, rules.cidr);
      hide ListParsed;
      if Describes(rules, row, p) {
        HoldsOnce(p.schemes, ListParsed(row.schemes, rules.scheme), row.schemes, rules.scheme);
        HoldsOnce(p.hosts, ListParsed(row.hosts, rules.host), row.hosts, rules.host);
        HoldsOnce(p.ports, ListParsed(row.ports, EveryPort), row.ports, EveryPort);
        HoldsOnce(p.cidrs, ListParsed(row.cidrs, rules.cidr), row.cidrs, rules.cidr);
      }
    }
  }

  /** Malformed JSON is reported as such only if no earlier list was refused for its values. */
  ghost function ListFault<A, B>(row: PolicyRow, list: Option<seq<A>>, parse: A -> Option<B>): Option<Error> {
    if list.None? then Some(Error(InvalidPolicyJson, row.id))
    else if !Allowable(list.value, parse) then Some(Error(InvalidPolicyValue, row.id))
    else None
  }

  ghost function CompileFault(rules: Rules, row: PolicyRow): Option<Error> {
    FirstSome([ListFault(row, row.schemes, rules.scheme), ListFault(row, row.hosts, rules.host),
               ListFault(row, row.ports, EveryPort), ListFault(row, row.cidrs, rules.cidr),
               if PolicyOf(rules, row).None? then Some(Error(InvalidPolicyValue, row.id)) else None])
  }

  method ParseList<A, B(==)>(row: PolicyRow, list: Option<seq<A>>, parse: A -> Option<B>) returns (r: Result<set<B>, Error>)
    ensures r.Ok? <==> ListAllowable(list, parse)
    ensures r.Ok? ==> r.value == ListParsed(list, parse)
    ensures r.Err? ==> ListFault(row, list, parse) == Some(r.error)
  {
    if list.None? {
      return Err(Error(InvalidPolicyJson, row.id));
    }
    var parsed := ParseAllowlist(list.value, parse);
    if parsed.None? {
      return Err(Error(InvalidPolicyValue, row.id));
    }
    return Ok(parsed.value);
  }

  method CompilePolicy(rules: Rules, row: PolicyRow) returns (r: Result<Policy, Error>)
    ensures r.Ok? <==> PolicyOf(rules, row).Some?
    ensures r.Ok? ==> Some(r.value) == PolicyOf(rules, row)
    ensures match r case Ok(_) => CompileFault(rules, row).None? case Err(e) => CompileFault(rules, row) == Some(e)
  {
    hide ListFault, Parsed, Allowable;
    CompileFaultIs(rules, row);
    var schemes := ParseList(row, row.schemes, rules.scheme);
    if schemes.Err? {
      return Err(schemes.error);
    }
    var hosts := ParseList(row, row.hosts, rules.host);
    if hosts.Err? {
      return Err(hosts.error);
    }
    var ports := ParseList(row, row.ports, EveryPort);
    if ports.Err? {
      return Err(ports.error);
    }
    var cidrs := ParseList(row, row.cidrs, rules.cidr);
    if cidrs.Err? {
      return Err(cidrs.error);
    }
    var redirects := RedirectsOf(row);
    if redirects.None? {
      return Err(Error(InvalidPolicyValue, row.id));
    }
    var policy := Policy(row.id, row.name, schemes.value, hosts.value, ports.value, cidrs.value, redirects.value);
    if !rules.admits(policy) {
      return Err(Error(InvalidPolicyValue, row.id));
    }
    return Ok(policy);
  }

  lemma CompileFaultIs(rules: Rules, row: PolicyRow)
    ensures ListFault(row, row.schemes, rules.scheme).None? <==> ListAllowable(row.schemes, rules.scheme)
    ensures ListFault(row, row.hosts, rules.host).None? <==> ListAllowable(row.hosts, rules.host)
    ensures ListFault(row, row.ports, EveryPort).None? <==> ListAllowable(row.ports, EveryPort)
    ensures ListFault(row, row.cidrs, rules.cidr).None? <==> ListAllowable(row.cidrs, rules.cidr)
    ensures CompileFault(rules, row) ==
            if ListFault(row, row.schemes, rules.scheme).Some? then ListFault(row, row.schemes, rules.scheme)
            else if ListFault(row, row.hosts, rules.host).Some? then ListFault(row, row.hosts, rules.host)
            else if ListFault(row, row.ports, EveryPort).Some? then ListFault(row, row.ports, EveryPort)
            else if ListFault(row, row.cidrs, rules.cidr).Some? then ListFault(row, row.cidrs, rules.cidr)
            else if PolicyOf(rules, row).None? then Some(Error(InvalidPolicyValue, row.id)) else None
  {
    hide PolicyOf, Allowable;
    var faults := [ListFault(row, row.schemes, rules.scheme), ListFault(row, row.hosts, rules.host),
                   ListFault(row, row.ports, EveryPort), ListFault(row, row.cidrs, rules.cidr),
                   if PolicyOf(rules, row).None? then Some(Error(InvalidPolicyValue, row.id)) else None];
    if faults[0].Some? { FirstSomeAt(faults, 0); }
    else if faults[1].Some? { FirstSomeAt(faults, 1); }
    else if faults[2].Some? { FirstSomeAt(faults, 2); }
    else if faults[3].Some? { FirstSomeAt(faults, 3); }
    else if faults[4].Some? { FirstSomeAt(faults, 4); }
  }

  // ---- The whole configuration, row by row ----

  ghost function PolicyFault(rules: Rules, config: Configuration, i: nat): Option<Error>
    requires i < |config.policies|
  {
    var row := config.policies[i];
    if Repeats(config.policies, PolicyId, i) then Some(Error(DuplicatePolicy, row.id))
    else if Repeats(config.policies, PolicyName, i) then Some(Error(DuplicatePolicyName, row.name))
    else CompileFault(rules, row)
  }

  ghost function UpstreamFault(config: Configuration, i: nat): Option<Error>
    requires i < |config.upstreams|
  {
    var u := config.upstreams[i];
    if Repeats(config.upstreams, UpstreamId, i) then Some(Error(DuplicateUpstream, u.id))
    else if u.policyId.Some? && Find(config.policies, PolicyId, u.policyId.value).None? then Some(Error(MissingReferencedPolicy, u.id))
    else if u.policyId.None? && u.enabled then Some(Error(EnabledUpstreamMissingPolicy, u.id))
    else None
  }

  /** The compiled policy an Upstream refers to. */
  ghost function PolicyOfUpstream(rules: Rules, config: Configuration, id: string): Option<Policy> {
    match Find(config.upstreams, UpstreamId, id)
    case None => None
    case Some(u) =>
      if u.policyId.None? then None
      else
        match Find(config.policies, PolicyId, u.policyId.value)
        case None => None
        case Some(row) => PolicyOf(rules, row)
  }

  ghost function EndpointFault(rules: Rules, config: Configuration, i: nat): Option<Error>
    requires i < |config.endpoints|
  {
    var e := config.endpoints[i];
    var u := Find(config.upstreams, UpstreamId, e.upstreamId);
    if Repeats(config.endpoints, EndpointId, i) then Some(Error(DuplicateEndpoint, e.id))
    else if u.None? then Some(Error(MissingEndpointUpstream, e.id))
    else if !e.enabled || !u.value.enabled then None
    else
      var policy := PolicyOfUpstream(rules, config, e.upstreamId);
      if policy.Some? && rules.accepts(policy.value, e.url) then None else Some(Error(EndpointUrlRejected, e.id))
  }

  ghost predicate PoliciesFine(rules: Rules, config: Configuration) {
    forall i :: 0 <= i < |config.policies| ==> PolicyFault(rules, config, i).None?
  }

  ghost predicate UpstreamsFine(config: Configuration) {
    forall i :: 0 <= i < |config.upstreams| ==> UpstreamFault(config, i).None?
  }

  ghost predicate EndpointsFine(rules: Rules, config: Configuration) {
    forall i :: 0 <= i < |config.endpoints| ==> EndpointFault(rules, config, i).None?
  }

  /** The error a configuration must be refused with: the first faulty policy, else the first faulty Upstream, else
      the first faulty Endpoint, each in configuration order. */
  ghost predicate RefusedWith(rules: Rules, config: Configuration, e: Error) {
    || (exists i :: && 0 <= i < |config.policies| && PolicyFault(rules, config, i) == Some(e)
                    && forall j :: 0 <= j < i ==> PolicyFault(rules, config, j).None?)
    || (PoliciesFine(rules, config) &&
        exists i :: && 0 <= i < |config.upstreams| && UpstreamFault(config, i) == Some(e)
                    && forall j :: 0 <= j < i ==> UpstreamFault(config, j).None?)
    || (PoliciesFine(rules, config) && UpstreamsFine(config) &&
        exists i :: && 0 <= i < |config.endpoints| && EndpointFault(rules, config, i) == Some(e)
                    && forall j :: 0 <= j < i ==> EndpointFault(rules, config, j).None?)
  }

  ghost predicate Accepted(rules: Rules, config: Configuration) {
    PoliciesFine(rules, config) && UpstreamsFine(config) && EndpointsFine(rules, config)
  }

  /** Acceptance, said without row order: identities and names are distinct, every policy compiles, references
      resolve, enabled Upstreams have a policy, and every enabled Endpoint of an enabled Upstream passes its check. */
  lemma AcceptedMeans(rules: Rules, config: Configuration)
    ensures Accepted(rules, config) <==>
            && DistinctKeys(config.policies, PolicyId) && DistinctKeys(config.policies, PolicyName)
            && (forall i :: 0 <= i < |config.policies| ==> PolicyOf(rules, config.policies[i]).Some?)
            && DistinctKeys(config.upstreams, UpstreamId)
            && (forall i :: 0 <= i < |config.upstreams| && config.upstreams[i].policyId.Some? ==>
                  Find(config.policies, PolicyId, config.upstreams[i].policyId.value).Some?)
            && (forall i :: 0 <= i < |config.upstreams| && config.upstreams[i].enabled ==> config.upstreams[i].policyId.Some?)
            && DistinctKeys(config.endpoints, EndpointId)
            && (forall i :: 0 <= i < |config.endpoints| ==> Find(config.upstreams, UpstreamId, config.endpoints[i].upstreamId).Some?)
            && (forall i :: 0 <= i < |config.endpoints| && LiveEndpoint(config, config.endpoints[i]) ==>
                  var policy := PolicyOfUpstream(rules, config, config.endpoints[i].upstreamId);
                  policy.Some? && rules.accepts(policy.value, config.endpoints[i].url))
  {
    hide PolicyOf, Find, PolicyOfUpstream, PolicyFault, UpstreamFault, EndpointFault, DistinctKeys;
    PoliciesMean(rules, config);
    UpstreamsMean(config);
    EndpointsMean(rules, config);
  }

  lemma PoliciesMean(rules: Rules, config: Configuration)
    ensures PoliciesFine(rules, config) <==>
            && DistinctKeys(config.policies, PolicyId) && DistinctKeys(config.policies, PolicyName)
            && (forall i :: 0 <= i < |config.policies| ==> PolicyOf(rules, config.policies[i]).Some?)
  {
    hide PolicyOf, CompileFault, Repeats, DistinctKeys;
    NoRepeats(config.policies, PolicyId);
    NoRepeats(config.policies, PolicyName);
    forall i | 0 <= i < |config.policies|
      ensures PolicyFault(rules, config, i).None? <==>
              && !Repeats(config.policies, PolicyId, i) && !Repeats(config.policies, PolicyName, i)
              && PolicyOf(rules, config.policies[i]).Some?
    {
      CompilesIff(rules, config.policies[i]);
    }
    hide PolicyFault;
  }

  lemma UpstreamsMean(config: Configuration)
    ensures UpstreamsFine(config) <==>
            && DistinctKeys(config.upstreams, UpstreamId)
            && (forall i :: 0 <= i < |config.upstreams| && config.upstreams[i].policyId.Some? ==>
                  Find(config.policies, PolicyId, config.upstreams[i].policyId.value).Some?)
            && (forall i :: 0 <= i < |config.upstreams| && config.upstreams[i].enabled ==> config.upstreams[i].policyId.Some?)
  {
    hide Repeats, DistinctKeys, Find;
    NoRepeats(config.upstreams, UpstreamId);
    forall i | 0 <= i < |config.upstreams|
      ensures UpstreamFault(config, i).None? <==>
              && !Repeats(config.upstreams, UpstreamId, i)
              && (config.upstreams[i].policyId.Some? ==> Find(config.policies, PolicyId, config.upstreams[i].policyId.value).Some?)
              && (config.upstreams[i].enabled ==> config.upstreams[i].policyId.Some?)
    {
    }
    hide UpstreamFault;
  }

  lemma EndpointsMean(rules: Rules, config: Configuration)
    ensures EndpointsFine(rules, config) <==>
            && DistinctKeys(config.endpoints, EndpointId)
            && (forall i :: 0 <= i < |config.endpoints| ==> Find(config.upstreams, UpstreamId, config.endpoints[i].upstreamId).Some?)
            && (forall i :: 0 <= i < |config.endpoints| && LiveEndpoint(config, config.endpoints[i]) ==>
                  var policy := PolicyOfUpstream(rules, config, config.endpoints[i].upstreamId);
                  policy.Some? && rules.accepts(policy.value, config.endpoints[i].url))
  {
    hide Repeats, DistinctKeys, Find, PolicyOfUpstream;
    NoRepeats(config.endpoints, EndpointId);
    forall i | 0 <= i < |config.endpoints|
      ensures EndpointFault(rules, config, i).None? <==>
              && !Repeats(config.endpoints, EndpointId, i)
              && Find(config.upstreams, UpstreamId, config.endpoints[i].upstreamId).Some?
              && (LiveEndpoint(config, config.endpoints[i]) ==>
                    var policy := PolicyOfUpstream(rules, config, config.endpoints[i].upstreamId);
                    policy.Some? && rules.accepts(policy.value, config.endpoints[i].url))
    {
    }
    hide EndpointFault, LiveEndpoint;
  }

  lemma CompilesIff(rules: Rules, row: PolicyRow)
    ensures CompileFault(rules, row).None? <==> PolicyOf(rules, row).Some?
  {
    hide CompileFault, ListFault, ListAllowable;
    CompileFaultIs(rules, row);
  }

  predicate LiveEndpoint(config: Configuration, e: Endpoint) {
    var u := Find(config.upstreams, UpstreamId, e.upstreamId);
    e.enabled && u.Some? && u.value.enabled
  }

  // ---- The three loops ----

  ghost function FoundPolicy(rules: Rules, rows: seq<PolicyRow>, id: string): Option<Policy> {
    match Find(rows, PolicyId, id)
    case None => None
    case Some(row) => PolicyOf(rules, row)
  }

  /** The compiled policies answer every identity as searching the rows and compiling the hit would. */
  ghost predicate Compiles(rules: Rules, policies: map<string, Policy>, rows: seq<PolicyRow>) {
    forall id :: Lookup(policies, id) == FoundPolicy(rules, rows, id)
  }

  function Names(rows: seq<PolicyRow>): set<string> {
    set i | 0 <= i < |rows| :: rows[i].name
  }

  lemma PolicyRowNext(rules: Rules, rows: seq<PolicyRow>, policies: map<string, Policy>, i: nat)
    requires i < |rows| && Compiles(rules, policies, rows[..i])
    requires forall j :: 0 <= j < i ==> PolicyOf(rules, rows[j]).Some?
    ensures rows[i].id in policies <==> Repeats(rows, PolicyId, i)
    ensures rows[i].name in Names(rows[..i]) <==> Repeats(rows, PolicyName, i)
    ensures Names(rows[..i + 1]) == Names(rows[..i]) + {rows[i].name}
    ensures PolicyOf(rules, rows[i]).Some? ==> Compiles(rules, policies[rows[i].id := PolicyOf(rules, rows[i]).value], rows[..i + 1])
  {
    hide PolicyOf;
    var before, after := rows[..i], rows[..i + 1];
    assert after[..i] == before;
    assert forall j :: 0 <= j < i ==> before[j] == rows[j] && after[j] == rows[j];
    Found(before, PolicyId, rows[i].id);
    assert Lookup(policies, rows[i].id) == FoundPolicy(rules, before, rows[i].id);
    if PolicyOf(rules, rows[i]).Some? {
      var next := policies[rows[i].id := PolicyOf(rules, rows[i]).value];
      forall id
        ensures Lookup(next, id) == FoundPolicy(rules, after, id)
      {
        assert Lookup(policies, id) == FoundPolicy(rules, before, id);
      }
    }
  }

  method CompilePolicies(rules: Rules, config: Configuration) returns (r: Result<map<string, Policy>, Error>)
    ensures r.Ok? ==> PoliciesFine(rules, config) && Compiles(rules, r.value, config.policies)
    ensures r.Err? ==> exists i :: && 0 <= i < |config.policies| && PolicyFault(rules, config, i) == Some(r.error)
                                   && forall j :: 0 <= j < i ==> PolicyFault(rules, config, j).None?
  {
    hide PolicyOf, CompileFault, Repeats, Compiles, Names;
    var rows := config.policies;
    var policies: map<string, Policy> := map[];
    var names: set<string> := {};
    NothingCompiled(rules, rows);
    for i := 0 to |rows|
      invariant forall j :: 0 <= j < i ==> PolicyFault(rules, config, j).None? && PolicyOf(rules, rows[j]).Some?
      invariant Compiles(rules, policies, rows[..i]) && names == Names(rows[..i])
    {
      var row := rows[i];
      ghost var fault := PolicyFault(rules, config, i);
      PolicyRowNext(rules, rows, policies, i);
      if row.id in policies {
        return Err(Error(DuplicatePolicy, row.id));
      }
      if row.name in names {
        return Err(Error(DuplicatePolicyName, row.name));
      }
      names := names + {row.name};
      var compiled := CompilePolicy(rules, row);
      if compiled.Err? {
        return Err(compiled.error);
      }
      policies := policies[row.id := compiled.value];
    }
    assert rows[..|rows|] == rows;
    r := Ok(policies);
  }

  lemma NothingCompiled(rules: Rules, rows: seq<PolicyRow>)
    ensures Compiles(rules, map[], rows[..0]) && Names(rows[..0]) == {}
  {
  }

  function ReferenceOf(upstreams: seq<Upstream>, id: string): Option<string> {
    match Find(upstreams, UpstreamId, id)
    case None => None
    case Some(u) => u.policyId
  }

  ghost predicate Refers(references: map<string, string>, upstreams: seq<Upstream>) {
    forall id :: Lookup(references, id) == ReferenceOf(upstreams, id)
  }

  lemma UpstreamNext(all: seq<Upstream>, indexed: map<string, Upstream>, references: map<string, string>, i: nat)
    requires i < |all| && DistinctKeys(all[..i], UpstreamId) && Indexes(indexed, all[..i], UpstreamId) && Refers(references, all[..i])
    ensures all[i].id in indexed <==> Repeats(all, UpstreamId, i)
    ensures all[i].id !in indexed ==>
            && DistinctKeys(all[..i + 1], UpstreamId)
            && Indexes(indexed[all[i].id := all[i]], all[..i + 1], UpstreamId)
            && Refers(if all[i].policyId.Some? then references[all[i].id := all[i].policyId.value] else references, all[..i + 1])
  {
    IndexNext(indexed, all, UpstreamId, i);
    var next := if all[i].policyId.Some? then references[all[i].id := all[i].policyId.value] else references;
    var before, after := all[..i], all[..i + 1];
    assert after[..i] == before;
    if all[i].id !in indexed {
      forall id
        ensures Lookup(next, id) == ReferenceOf(after, id)
      {
        assert Lookup(references, id) == ReferenceOf(before, id);
        assert Lookup(indexed, id) == Find(before, UpstreamId, id);
      }
    }
  }

  method IndexUpstreams(rules: Rules, config: Configuration, policies: map<string, Policy>)
    returns (r: Result<(map<string, Upstream>, map<string, string>), Error>)
    requires Compiles(rules, policies, config.policies) && PoliciesFine(rules, config)
    ensures r.Ok? ==> && UpstreamsFine(config)
                      && Indexes(r.value.0, config.upstreams, UpstreamId)
                      && Refers(r.value.1, config.upstreams)
    ensures r.Err? ==> exists i :: && 0 <= i < |config.upstreams| && UpstreamFault(config, i) == Some(r.error)
                                   && forall j :: 0 <= j < i ==> UpstreamFault(config, j).None?
  {
    hide Repeats, Indexes, Refers, Compiles, PoliciesFine, Find, DistinctKeys;
    var all := config.upstreams;
    var indexed: map<string, Upstream> := map[];
    var references: map<string, string> := map[];
    NothingIndexed(all, UpstreamId);
    NothingReferred(all);
    for i := 0 to |all|
      invariant forall j :: 0 <= j < i ==> UpstreamFault(config, j).None?
      invariant DistinctKeys(all[..i], UpstreamId)
      invariant Indexes(indexed, all[..i], UpstreamId) && Refers(references, all[..i])
    {
      var upstream := all[i];
      ghost var fault := UpstreamFault(config, i);
      UpstreamNext(all, indexed, references, i);
      if upstream.id in indexed {
        return Err(Error(DuplicateUpstream, upstream.id));
      }
      indexed := indexed[upstream.id := upstream];
      match upstream.policyId {
        case Some(policyId) =>
          PolicyPresent(rules, config, policies, policyId);
          if policyId !in policies {
            return Err(Error(MissingReferencedPolicy, upstream.id));
          }
          references := references[upstream.id := policyId];
        case None =>
          if upstream.enabled {
            return Err(Error(EnabledUpstreamMissingPolicy, upstream.id));
          }
      }
    }
    assert all[..|all|] == all;
    r := Ok((indexed, references));
  }

  lemma NothingReferred(all: seq<Upstream>)
    ensures Refers(map[], all[..0])
  {
  }

  /** Every configured policy is in the compiled map, and nothing else is. */
  lemma PolicyPresent(rules: Rules, config: Configuration, policies: map<string, Policy>, id: string)
    requires Compiles(rules, policies, config.policies) && PoliciesFine(rules, config)
    ensures id in policies <==> Find(config.policies, PolicyId, id).Some?
    ensures Lookup(policies, id) == FoundPolicy(rules, config.policies, id)
  {
    hide PolicyOf, CompileFault, Find;
    assert Lookup(policies, id) == FoundPolicy(rules, config.policies, id);
    Found(config.policies, PolicyId, id);
    if Find(config.policies, PolicyId, id).Some? {
      var row := Find(config.policies, PolicyId, id).value;
      var i :| 0 <= i < |config.policies| && config.policies[i] == row;
      assert PolicyFault(rules, config, i).None?;
      CompilesIff(rules, row);
    }
  }

  /** One Endpoint read off the maps, with both second-pass missing-policy failures kept as written. */
  function EndpointCheck(rules: Rules, policies: map<string, Policy>, upstreams: map<string, Upstream>,
                         references: map<string, string>, seen: set<string>, e: Endpoint): Option<Error>
  {
    if e.id in seen then Some(Error(DuplicateEndpoint, e.id))
    else if e.upstreamId !in upstreams then Some(Error(MissingEndpointUpstream, e.id))
    else
      var upstream := upstreams[e.upstreamId];
      if !e.enabled || !upstream.enabled then None
      else if e.upstreamId !in references then Some(Error(EnabledUpstreamMissingPolicy, upstream.id))
      else if references[e.upstreamId] !in policies then Some(Error(MissingReferencedPolicy, upstream.id))
      else if !rules.accepts(policies[references[e.upstreamId]], e.url) then Some(Error(EndpointUrlRejected, e.id))
      else None
  }

  /** After the first two passes the check is exactly the declared fault; the missing-policy failures are dead. */
  lemma EndpointCheckMeans(rules: Rules, config: Configuration, policies: map<string, Policy>, upstreams: map<string, Upstream>,
                           references: map<string, string>, seen: set<string>, i: nat)
    requires i < |config.endpoints|
    requires Compiles(rules, policies, config.policies) && PoliciesFine(rules, config) && UpstreamsFine(config)
    requires Indexes(upstreams, config.upstreams, UpstreamId) && Refers(references, config.upstreams)
    requires config.endpoints[i].id in seen <==> Repeats(config.endpoints, EndpointId, i)
    ensures EndpointCheck(rules, policies, upstreams, references, seen, config.endpoints[i]) == EndpointFault(rules, config, i)
    ensures EndpointFault(rules, config, i).Some? ==>
            EndpointFault(rules, config, i).value.code !in {EnabledUpstreamMissingPolicy, MissingReferencedPolicy}
  {
    hide PolicyOf, Repeats, Find, PoliciesFine;
    var id := config.endpoints[i].upstreamId;
    assert Lookup(upstreams, id) == Find(config.upstreams, UpstreamId, id);
    assert Lookup(references, id) == ReferenceOf(config.upstreams, id);
    Found(config.upstreams, UpstreamId, id);
    if id in upstreams {
      var k :| 0 <= k < |config.upstreams| && config.upstreams[k] == upstreams[id];
      assert UpstreamFault(config, k).None?;
      if upstreams[id].policyId.Some? {
        PolicyPresent(rules, config, policies, upstreams[id].policyId.value);
      }
    }
  }

  function EndpointIds(all: seq<Endpoint>): set<string> {
    set i | 0 <= i < |all| :: all[i].id
  }

  lemma EndpointIdsNext(all: seq<Endpoint>, i: nat)
    requires i < |all|
    ensures all[i].id in EndpointIds(all[..i]) <==> Repeats(all, EndpointId, i)
    ensures EndpointIds(all[..i + 1]) == EndpointIds(all[..i]) + {all[i].id}
  {
    var before, after := all[..i], all[..i + 1];
    assert forall j :: 0 <= j < i ==> before[j] == all[j] && after[j] == all[j];
    assert after[i] == all[i];
  }

  method CheckEndpoints(rules: Rules, config: Configuration, policies: map<string, Policy>, upstreams: map<string, Upstream>,
                        references: map<string, string>) returns (r: Option<Error>)
    requires Compiles(rules, policies, config.policies) && PoliciesFine(rules, config) && UpstreamsFine(config)
    requires Indexes(upstreams, config.upstreams, UpstreamId) && Refers(references, config.upstreams)
    ensures r.None? ==> EndpointsFine(rules, config)
    ensures r.Some? ==> exists i :: && 0 <= i < |config.endpoints| && EndpointFault(rules, config, i) == r
                                    && forall j :: 0 <= j < i ==> EndpointFault(rules, config, j).None?
  {
    hide EndpointFault, EndpointCheck, Compiles, PoliciesFine, UpstreamsFine, Indexes, Refers, EndpointIds, Repeats;
    var all := config.endpoints;
    var seen: set<string> := {};
    NoEndpoints(all);
    for i := 0 to |all|
      invariant forall j :: 0 <= j < i ==> EndpointFault(rules, config, j).None?
      invariant seen == EndpointIds(all[..i])
    {
      EndpointIdsNext(all, i);
      EndpointCheckMeans(rules, config, policies, upstreams, references, seen, i);
      r := EndpointCheck(rules, policies, upstreams, references, seen, all[i]);
      if r.Some? {
        return;
      }
      seen := seen + {all[i].id};
    }
    r := None;
  }

  lemma NoEndpoints(all: seq<Endpoint>)
    ensures EndpointIds(all[..0]) == {}
  {
  }

  // ---- The compiler ----

  datatype Compiled = Compiled(policies: map<string, Policy>, policyByUpstream: map<string, string>)

  function PolicyForUpstream(compiled: Compiled, upstreamId: string): Option<Policy> {
    match Lookup(compiled.policyByUpstream, upstreamId)
    case None => None
    case Some(policyId) => Lookup(compiled.policies, policyId)
  }

  /** Compilation accepts exactly the acceptable configurations, refuses the others with the first fault, and then
      answers every Upstream with the policy its row refers to. */
  method Compile(rules: Rules, config: Configuration) returns (r: Result<Compiled, Error>)
    ensures r.Ok? <==> Accepted(rules, config)
    ensures r.Err? ==> RefusedWith(rules, config, r.error)
    ensures r.Ok? ==> forall id :: PolicyForUpstream(r.value, id) == PolicyOfUpstream(rules, config, id)
  {
    hide PolicyFault, UpstreamFault, EndpointFault, Compiles, Indexes, Refers, PolicyForUpstream, PolicyOfUpstream;
    var policies := CompilePolicies(rules, config);
    if policies.Err? {
      return Err(policies.error);
    }
    var upstreams := IndexUpstreams(rules, config, policies.value);
    if upstreams.Err? {
      return Err(upstreams.error);
    }
    var refused := CheckEndpoints(rules, config, policies.value, upstreams.value.0, upstreams.value.1);
    if refused.Some? {
      return Err(refused.value);
    }
    var compiled := Compiled(policies.value, upstreams.value.1);
    forall id
      ensures PolicyForUpstream(compiled, id) == PolicyOfUpstream(rules, config, id)
    {
      CompiledAnswers(rules, config, compiled, id);
    }
    return Ok(compiled);
  }

  lemma CompiledAnswers(rules: Rules, config: Configuration, compiled: Compiled, id: string)
    requires Compiles(rules, compiled.policies, config.policies) && PoliciesFine(rules, config)
    requires Refers(compiled.policyByUpstream, config.upstreams)
    ensures PolicyForUpstream(compiled, id) == PolicyOfUpstream(rules, config, id)
  {
    hide PolicyOf, Find, PoliciesFine, Compiles;
    assert Lookup(compiled.policyByUpstream, id) == ReferenceOf(config.upstreams, id);
    if ReferenceOf(config.upstreams, id).Some? {
      PolicyPresent(rules, config, compiled.policies, ReferenceOf(config.upstreams, id).value);
    }
  }

  /** After an accepted compilation every Upstream with a reference has a policy, and every live Endpoint's URL passed it. */
  lemma EveryReferenceAnswers(rules: Rules, config: Configuration, i: nat)
    requires Accepted(rules, config)
    ensures i < |config.upstreams| && config.upstreams[i].policyId.Some? ==>
            PolicyOfUpstream(rules, config, config.upstreams[i].id).Some?
    ensures i < |config.endpoints| && LiveEndpoint(config, config.endpoints[i]) ==>
            var policy := PolicyOfUpstream(rules, config, config.endpoints[i].upstreamId);
            policy.Some? && rules.accepts(policy.value, config.endpoints[i].url)
  {
    hide PolicyOf;
    AcceptedMeans(rules, config);
    hide Accepted, Find;
    if i < |config.upstreams| && config.upstreams[i].policyId.Some? {
      FoundAt(config.upstreams, UpstreamId, i);
      Found(config.policies, PolicyId, config.upstreams[i].policyId.value);
    }
  }

  /** The policy answered for an Upstream is compiled from the very row the Upstream names. */
  lemma ReferencedPolicyIs(rules: Rules, config: Configuration, u: Upstream, row: PolicyRow)
    requires Accepted(rules, config)
    requires u in config.upstreams && row in config.policies && u.policyId == Some(row.id)
    ensures PolicyOf(rules, row).Some? && PolicyOfUpstream(rules, config, u.id) == PolicyOf(rules, row)
  {
    hide PolicyOf;
    AcceptedMeans(rules, config);
    hide Accepted, Find, DistinctKeys;
    FoundIff(config.upstreams, UpstreamId, u.id, u);
    FoundIff(config.policies, PolicyId, row.id, row);
  }

  // ---- What each error means ----

  ghost predicate Cause(rules: Rules, config: Configuration, error: Error) {
    match error.code
    case DuplicatePolicy => exists i, j :: 0 <= i < j < |config.policies| && config.policies[i].id == config.policies[j].id == error.subject
    case DuplicatePolicyName => exists i, j :: 0 <= i < j < |config.policies| && config.policies[i].name == config.policies[j].name == error.subject
    case InvalidPolicyJson =>
      exists row :: && row in config.policies && row.id == error.subject
                    && (row.schemes.None? || row.hosts.None? || row.ports.None? || row.cidrs.None?)
    case InvalidPolicyValue => exists row :: row in config.policies && row.id == error.subject && PolicyOf(rules, row).None?
    case DuplicateUpstream => exists i, j :: 0 <= i < j < |config.upstreams| && config.upstreams[i].id == config.upstreams[j].id == error.subject
    case MissingReferencedPolicy =>
      exists u :: && u in config.upstreams && u.id == error.subject && u.policyId.Some?
                  && forall row :: row in config.policies ==> row.id != u.policyId.value
    case EnabledUpstreamMissingPolicy => exists u :: u in config.upstreams && u.id == error.subject && u.enabled && u.policyId.None?
    case DuplicateEndpoint => exists i, j :: 0 <= i < j < |config.endpoints| && config.endpoints[i].id == config.endpoints[j].id == error.subject
    case MissingEndpointUpstream =>
      exists e :: && e in config.endpoints && e.id == error.subject
                  && forall u :: u in config.upstreams ==> u.id != e.upstreamId
    case EndpointUrlRejected =>
      exists e, u, row, p :: && e in config.endpoints && e.id == error.subject && e.enabled
                             && u in config.upstreams && u.id == e.upstreamId && u.enabled
                             && row in config.policies && u.policyId == Some(row.id) && PolicyOf(rules, row) == Some(p)
                             && !rules.accepts(p, e.url)
  }

  lemma PolicyCause(rules: Rules, config: Configuration, i: nat)
    requires i < |config.policies| && PolicyFault(rules, config, i).Some?
    ensures Cause(rules, config, PolicyFault(rules, config, i).value)
  {
    hide PolicyOf, Allowable;
    var row := config.policies[i];
    assert row in config.policies;
    if !Repeats(config.policies, PolicyId, i) && !Repeats(config.policies, PolicyName, i) {
      CompileFaultIs(rules, row);
      CompilesIff(rules, row);
      hide CompileFault;
    }
  }

  lemma UpstreamCause(rules: Rules, config: Configuration, i: nat)
    requires i < |config.upstreams| && UpstreamFault(config, i).Some?
    ensures Cause(rules, config, UpstreamFault(config, i).value)
  {
    hide Find, PolicyOf;
    var u := config.upstreams[i];
    assert u in config.upstreams;
    if u.policyId.Some? { Found(config.policies, PolicyId, u.policyId.value); }
  }

  lemma EndpointCause(rules: Rules, config: Configuration, i: nat)
    requires PoliciesFine(rules, config) && UpstreamsFine(config)
    requires i < |config.endpoints| && EndpointFault(rules, config, i).Some?
    ensures Cause(rules, config, EndpointFault(rules, config, i).value)
  {
    PoliciesMean(rules, config);
    UpstreamsMean(config);
    hide Find, PolicyOf, PoliciesFine, UpstreamsFine, DistinctKeys;
    var e := config.endpoints[i];
    assert e in config.endpoints;
    Found(config.upstreams, UpstreamId, e.upstreamId);
    var found := Find(config.upstreams, UpstreamId, e.upstreamId);
    if found.Some? && found.value.policyId.Some? { Found(config.policies, PolicyId, found.value.policyId.value); }
  }

  /** Every error names a fault the configuration really has, and whose fault it is. */
  lemma RefusalNamesCause(rules: Rules, config: Configuration, error: Error)
    requires RefusedWith(rules, config, error)
    ensures Cause(rules, config, error)
  {
    hide Cause, PolicyFault, UpstreamFault, EndpointFault, PoliciesFine, UpstreamsFine;
    if i :| 0 <= i < |config.policies| && PolicyFault(rules, config, i) == Some(error) {
      PolicyCause(rules, config, i);
    } else if i :| 0 <= i < |config.upstreams| && UpstreamFault(config, i) == Some(error) {
      UpstreamCause(rules, config, i);
    } else {
      var i :| 0 <= i < |config.endpoints| && EndpointFault(rules, config, i) == Some(error);
      EndpointCause(rules, config, i);
    }
  }
}
