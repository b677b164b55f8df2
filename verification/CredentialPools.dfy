/** Compiling control-plane Credential bindings into the inputs of Endpoint-local pools. */
module CredentialPools {
  import opened Basics
  import opened Indexing

  datatype CredentialStatus = Active | Cooling | Unauthorized | Disabled

  datatype Upstream = Upstream(id: string, enabled: bool)
  datatype Endpoint = Endpoint(id: string, upstreamId: string, enabled: bool)
  datatype Credential = Credential(id: string, upstreamId: string, kind: string, revision: int, status: CredentialStatus, sealed: seq<byte>)
  datatype Binding = Binding(
    endpointId: string, credentialId: string, upstreamId: string,
    enabled: bool, priority: int, weight: int, concurrency: int
  )

  datatype Configuration = Configuration(
    versionId: string,
    upstreams: seq<Upstream>,
    endpoints: seq<Endpoint>,
    credentials: seq<Credential>,
    bindings: seq<Binding>
  )

  datatype Input = Input(
    credentialId: string, kind: string, revision: int,
    priority: int, weight: int, concurrency: int, secret: seq<byte>
  )

  datatype CompileError =
    | DuplicateUpstream | DuplicateEndpoint | DuplicateCredential | DuplicateBinding
    | MissingBindingEndpoint | MissingBindingCredential
    | MissingEndpointUpstream | MissingCredentialUpstream
    | BindingUpstreamMismatch
    | SecretFailed(code: nat)

  // Building the associated data, opening the sealed secret and validating it, as one opaque step.
  type Open = (string, Credential) -> Result<seq<byte>, nat>

  // ---- The declarative meaning of a configuration ----

  function UpstreamId(u: Upstream): string { u.id }
  function EndpointId(e: Endpoint): string { e.id }
  function CredentialId(c: Credential): string { c.id }

  predicate DistinctPairs(all: seq<Binding>) {
    forall i, j :: 0 <= i < j < |all| ==>
      all[i].endpointId != all[j].endpointId || all[i].credentialId != all[j].credentialId
  }

  /** A binding's Endpoint and Credential exist and share its Upstream. */
  predicate Owned(config: Configuration, b: Binding) {
    var e := Find(config.endpoints, EndpointId, b.endpointId);
    var c := Find(config.credentials, CredentialId, b.credentialId);
    e.Some? && c.Some? && e.value.upstreamId == b.upstreamId && c.value.upstreamId == b.upstreamId
  }

  ghost predicate WellFormed(config: Configuration) {
    && DistinctKeys(config.upstreams, UpstreamId)
    && DistinctKeys(config.endpoints, EndpointId)
    && DistinctKeys(config.credentials, CredentialId)
    && (forall i :: 0 <= i < |config.endpoints| ==> Find(config.upstreams, UpstreamId, config.endpoints[i].upstreamId).Some?)
    && (forall i :: 0 <= i < |config.credentials| ==> Find(config.upstreams, UpstreamId, config.credentials[i].upstreamId).Some?)
    && DistinctPairs(config.bindings)
    && (forall i :: 0 <= i < |config.bindings| ==> Owned(config, config.bindings[i]))
  }

  predicate UpstreamEnabled(config: Configuration, id: string) {
    var u := Find(config.upstreams, UpstreamId, id);
    u.Some? && u.value.enabled
  }

  /** An enabled binding of an included, enabled Endpoint and an active Credential under enabled Upstreams. */
  predicate Eligible(config: Configuration, excluded: set<string>, b: Binding) {
    var e := Find(config.endpoints, EndpointId, b.endpointId);
    var c := Find(config.credentials, CredentialId, b.credentialId);
    && b.endpointId !in excluded
    && b.enabled
    && e.Some? && e.value.enabled && UpstreamEnabled(config, e.value.upstreamId)
    && c.Some? && c.value.status.Active? && UpstreamEnabled(config, c.value.upstreamId)
  }

  function Opened(config: Configuration, open: Open, b: Binding): Result<seq<byte>, nat> {
    match Find(config.credentials, CredentialId, b.credentialId)
    case None => Err(0)
    case Some(c) => open(config.versionId, c)
  }

  predicate AllOpen(config: Configuration, excluded: set<string>, open: Open) {
    forall i :: 0 <= i < |config.bindings| && Eligible(config, excluded, config.bindings[i]) ==>
      Opened(config, open, config.bindings[i]).Ok?
  }

  function InputOf(config: Configuration, open: Open, b: Binding): Option<Input> {
    match Find(config.credentials, CredentialId, b.credentialId)
    case None => None
    case Some(c) =>
      match open(config.versionId, c)
      case Err(_) => None
      case Ok(secret) => Some(Input(c.id, c.kind, c.revision, b.priority, b.weight, b.concurrency, secret))
  }

  /** One Endpoint's inputs: its eligible bindings in configuration order. */
  function InputsFor(config: Configuration, excluded: set<string>, open: Open, bindings: seq<Binding>, endpointId: string): seq<Input> {
    if bindings == [] then []
    else
      var last := bindings[|bindings| - 1];
      var earlier := InputsFor(config, excluded, open, bindings[..|bindings| - 1], endpointId);
      if last.endpointId == endpointId && Eligible(config, excluded, last) && InputOf(config, open, last).Some?
      then earlier + [InputOf(config, open, last).value]
      else earlier
  }

  function Gathered(config: Configuration, excluded: set<string>, open: Open): map<string, seq<Input>> {
    map e | e in BoundEndpoints(config.bindings) && InputsFor(config, excluded, open, config.bindings, e) != []
      :: InputsFor(config, excluded, open, config.bindings, e)
  }

  function BoundEndpoints(bindings: seq<Binding>): set<string> {
    set i | 0 <= i < |bindings| :: bindings[i].endpointId
  }

  // ---- The fault of each row, in the order it is looked for ----

  ghost function UpstreamFault(config: Configuration, i: nat): Option<CompileError>
    requires i < |config.upstreams|
  {
    if Repeats(config.upstreams, UpstreamId, i) then Some(DuplicateUpstream) else None
  }

  ghost function EndpointFault(config: Configuration, i: nat): Option<CompileError>
    requires i < |config.endpoints|
  {
    if Find(config.upstreams, UpstreamId, config.endpoints[i].upstreamId).None? then Some(MissingEndpointUpstream)
    else if Repeats(config.endpoints, EndpointId, i) then Some(DuplicateEndpoint)
    else None
  }

  ghost function CredentialFault(config: Configuration, i: nat): Option<CompileError>
    requires i < |config.credentials|
  {
    if Find(config.upstreams, UpstreamId, config.credentials[i].upstreamId).None? then Some(MissingCredentialUpstream)
    else if Repeats(config.credentials, CredentialId, i) then Some(DuplicateCredential)
    else None
  }

  predicate RepeatsPair(all: seq<Binding>, i: nat)
    requires i < |all|
  {
    exists j :: 0 <= j < i && all[j].endpointId == all[i].endpointId && all[j].credentialId == all[i].credentialId
  }

  ghost function BindingFault(config: Configuration, excluded: set<string>, open: Open, i: nat): Option<CompileError>
    requires i < |config.bindings|
  {
    var b := config.bindings[i];
    if Find(config.endpoints, EndpointId, b.endpointId).None? then Some(MissingBindingEndpoint)
    else if Find(config.credentials, CredentialId, b.credentialId).None? then Some(MissingBindingCredential)
    else if RepeatsPair(config.bindings, i) then Some(DuplicateBinding)
    else if !Owned(config, b) then Some(BindingUpstreamMismatch)
    else if Eligible(config, excluded, b) && Opened(config, open, b).Err? then Some(SecretFailed(Opened(config, open, b).error))
    else None
  }

  ghost function UpstreamFaults(config: Configuration): seq<Option<CompileError>> {
    seq(|config.upstreams|, i requires 0 <= i < |config.upstreams| => UpstreamFault(config, i))
  }

  ghost function EndpointFaults(config: Configuration): seq<Option<CompileError>> {
    seq(|config.endpoints|, i requires 0 <= i < |config.endpoints| => EndpointFault(config, i))
  }

  ghost function CredentialFaults(config: Configuration): seq<Option<CompileError>> {
    seq(|config.credentials|, i requires 0 <= i < |config.credentials| => CredentialFault(config, i))
  }

  ghost function BindingFaults(config: Configuration, excluded: set<string>, open: Open): seq<Option<CompileError>> {
    seq(|config.bindings|, i requires 0 <= i < |config.bindings| => BindingFault(config, excluded, open, i))
  }

  /** The error a configuration must be refused with: the first fault in the order Upstreams, Endpoints,
      Credentials, bindings, each in configuration order. */
  ghost function Refusal(config: Configuration, excluded: set<string>, open: Open): Option<CompileError> {
    var upstream, endpoint := FirstSome(UpstreamFaults(config)), FirstSome(EndpointFaults(config));
    var credential, binding := FirstSome(CredentialFaults(config)), FirstSome(BindingFaults(config, excluded, open));
    if upstream.Some? then upstream
    else if endpoint.Some? then endpoint
    else if credential.Some? then credential
    else binding
  }

  /** Nothing to refuse means well-formed with every eligible secret opening. */
  lemma RefusedIff(config: Configuration, excluded: set<string>, open: Open)
    ensures Refusal(config, excluded, open).None? <==> WellFormed(config) && AllOpen(config, excluded, open)
  {
    hide Find, Eligible, Opened, DistinctKeys, Repeats, FirstSome;
    NoRepeats(config.upstreams, UpstreamId);
    NoRepeats(config.endpoints, EndpointId);
    NoRepeats(config.credentials, CredentialId);
    BindingsFineMeans(config, excluded, open);
    hide BindingFaults, AllOpen, Owned, DistinctPairs;
    UpstreamsFineMeans(config);
    EndpointsFineMeans(config);
    CredentialsFineMeans(config);
    hide UpstreamFaults, EndpointFaults, CredentialFaults;
  }

  lemma UpstreamsFineMeans(config: Configuration)
    ensures FirstSome(UpstreamFaults(config)).None? <==>
            forall i :: 0 <= i < |config.upstreams| ==> !Repeats(config.upstreams, UpstreamId, i)
  {
    hide Repeats, FirstSome;
    forall i | 0 <= i < |config.upstreams|
      ensures UpstreamFaults(config)[i].None? <==> !Repeats(config.upstreams, UpstreamId, i)
    {
    }
    hide UpstreamFault;
  }

  lemma EndpointsFineMeans(config: Configuration)
    ensures FirstSome(EndpointFaults(config)).None? <==>
            && (forall i :: 0 <= i < |config.endpoints| ==> Find(config.upstreams, UpstreamId, config.endpoints[i].upstreamId).Some?)
            && (forall i :: 0 <= i < |config.endpoints| ==> !Repeats(config.endpoints, EndpointId, i))
  {
    hide Find, Repeats, FirstSome;
    forall i | 0 <= i < |config.endpoints|
      ensures EndpointFaults(config)[i].None? <==>
              Find(config.upstreams, UpstreamId, config.endpoints[i].upstreamId).Some? && !Repeats(config.endpoints, EndpointId, i)
    {
    }
    hide EndpointFault;
  }

  lemma CredentialsFineMeans(config: Configuration)
    ensures FirstSome(CredentialFaults(config)).None? <==>
            && (forall i :: 0 <= i < |config.credentials| ==> Find(config.upstreams, UpstreamId, config.credentials[i].upstreamId).Some?)
            && (forall i :: 0 <= i < |config.credentials| ==> !Repeats(config.credentials, CredentialId, i))
  {
    hide Find, Repeats, FirstSome;
    forall i | 0 <= i < |config.credentials|
      ensures CredentialFaults(config)[i].None? <==>
              Find(config.upstreams, UpstreamId, config.credentials[i].upstreamId).Some? && !Repeats(config.credentials, CredentialId, i)
    {
    }
    hide CredentialFault;
  }

  lemma BindingsFineMeans(config: Configuration, excluded: set<string>, open: Open)
    ensures FirstSome(BindingFaults(config, excluded, open)).None? <==>
            && DistinctPairs(config.bindings)
            && (forall i :: 0 <= i < |config.bindings| ==> Owned(config, config.bindings[i]))
            && AllOpen(config, excluded, open)
  {
    hide Find, Eligible, Opened, FirstSome;
    forall i | 0 <= i < |config.bindings|
      ensures BindingFaults(config, excluded, open)[i].None? <==>
              && !RepeatsPair(config.bindings, i) && Owned(config, config.bindings[i])
              && (Eligible(config, excluded, config.bindings[i]) ==> Opened(config, open, config.bindings[i]).Ok?)
    {
    }
    hide BindingFault, Owned;
    assert DistinctPairs(config.bindings) <==> forall i :: 0 <= i < |config.bindings| ==> !RepeatsPair(config.bindings, i);
  }

  // ---- The indexes ----

  method IndexUpstreams(config: Configuration) returns (r: Result<map<string, Upstream>, CompileError>)
    ensures r.Ok? ==> FirstSome(UpstreamFaults(config)).None? && Indexes(r.value, config.upstreams, UpstreamId)
    ensures r.Err? ==> FirstSome(UpstreamFaults(config)) == Some(r.error)
  {
    hide Repeats, Indexes, DistinctKeys, FirstSome;
    ghost var faults := UpstreamFaults(config);
    var all := config.upstreams;
    var indexed: map<string, Upstream> := map[];
    NothingIndexed(all, UpstreamId);
    for i := 0 to |all|
      invariant forall j :: 0 <= j < i ==> faults[j].None?
      invariant DistinctKeys(all[..i], UpstreamId) && Indexes(indexed, all[..i], UpstreamId)
    {
      var upstream := all[i];
      IndexNext(indexed, all, UpstreamId, i);
      if upstream.id in indexed {
        FirstSomeAt(faults, i);
        return Err(DuplicateUpstream);
      }
      indexed := indexed[upstream.id := upstream];
    }
    assert all[..|all|] == all;
    r := Ok(indexed);
  }

  method IndexEndpoints(config: Configuration, upstreams: map<string, Upstream>)
    returns (r: Result<map<string, Endpoint>, CompileError>)
    requires Indexes(upstreams, config.upstreams, UpstreamId)
    ensures r.Ok? ==> FirstSome(EndpointFaults(config)).None? && Indexes(r.value, config.endpoints, EndpointId)
    ensures r.Err? ==> FirstSome(EndpointFaults(config)) == Some(r.error)
  {
    hide Repeats, Indexes, DistinctKeys, Find, FirstSome;
    ghost var faults := EndpointFaults(config);
    var all := config.endpoints;
    var indexed: map<string, Endpoint> := map[];
    NothingIndexed(all, EndpointId);
    for i := 0 to |all|
      invariant forall j :: 0 <= j < i ==> faults[j].None?
      invariant DistinctKeys(all[..i], EndpointId) && Indexes(indexed, all[..i], EndpointId)
    {
      var endpoint := all[i];
      IndexAnswers(upstreams, config.upstreams, UpstreamId, endpoint.upstreamId);
      IndexNext(indexed, all, EndpointId, i);
      if endpoint.upstreamId !in upstreams {
        FirstSomeAt(faults, i);
        return Err(MissingEndpointUpstream);
      }
      if endpoint.id in indexed {
        FirstSomeAt(faults, i);
        return Err(DuplicateEndpoint);
      }
      indexed := indexed[endpoint.id := endpoint];
    }
    assert all[..|all|] == all;
    r := Ok(indexed);
  }

  method IndexCredentials(config: Configuration, upstreams: map<string, Upstream>)
    returns (r: Result<map<string, Credential>, CompileError>)
    requires Indexes(upstreams, config.upstreams, UpstreamId)
    ensures r.Ok? ==> FirstSome(CredentialFaults(config)).None? && Indexes(r.value, config.credentials, CredentialId)
    ensures r.Err? ==> FirstSome(CredentialFaults(config)) == Some(r.error)
  {
    hide Repeats, Indexes, DistinctKeys, Find, FirstSome;
    ghost var faults := CredentialFaults(config);
    var all := config.credentials;
    var indexed: map<string, Credential> := map[];
    NothingIndexed(all, CredentialId);
    for i := 0 to |all|
      invariant forall j :: 0 <= j < i ==> faults[j].None?
      invariant DistinctKeys(all[..i], CredentialId) && Indexes(indexed, all[..i], CredentialId)
    {
      var credential := all[i];
      IndexAnswers(upstreams, config.upstreams, UpstreamId, credential.upstreamId);
      IndexNext(indexed, all, CredentialId, i);
      if credential.upstreamId !in upstreams {
        FirstSomeAt(faults, i);
        return Err(MissingCredentialUpstream);
      }
      if credential.id in indexed {
        FirstSomeAt(faults, i);
        return Err(DuplicateCredential);
      }
      indexed := indexed[credential.id := credential];
    }
    assert all[..|all|] == all;
    r := Ok(indexed);
  }

  // ---- The binding loop ----

  function InputsAt(inputs: map<string, seq<Input>>, e: string): seq<Input> {
    if e in inputs then inputs[e] else []
  }

  ghost predicate Sound(config: Configuration, upstreams: map<string, Upstream>, endpoints: map<string, Endpoint>,
                        credentials: map<string, Credential>)
  {
    && Indexes(upstreams, config.upstreams, UpstreamId)
    && Indexes(endpoints, config.endpoints, EndpointId)
    && Indexes(credentials, config.credentials, CredentialId)
    && (forall e :: e in endpoints ==> endpoints[e].upstreamId in upstreams)
    && (forall c :: c in credentials ==> credentials[c].upstreamId in upstreams)
  }

  /** What one binding contributes, read off the indexes. The two missing-Upstream failures are kept as written. */
  function Contribution(config: Configuration, upstreams: map<string, Upstream>, endpoints: map<string, Endpoint>,
                        credentials: map<string, Credential>, seen: set<(string, string)>, excluded: set<string>,
                        open: Open, b: Binding): Result<Option<Input>, CompileError>
  {
    if b.endpointId !in endpoints then Err(MissingBindingEndpoint)
    else if b.credentialId !in credentials then Err(MissingBindingCredential)
    else
      var endpoint, credential := endpoints[b.endpointId], credentials[b.credentialId];
      if endpoint.upstreamId !in upstreams then Err(MissingEndpointUpstream)
      else if credential.upstreamId !in upstreams then Err(MissingCredentialUpstream)
      else if (b.endpointId, b.credentialId) in seen then Err(DuplicateBinding)
      else if b.upstreamId != endpoint.upstreamId || b.upstreamId != credential.upstreamId then Err(BindingUpstreamMismatch)
      else if b.endpointId in excluded then Ok(None)
      else if !upstreams[endpoint.upstreamId].enabled || !upstreams[credential.upstreamId].enabled
              || !endpoint.enabled || !b.enabled || !credential.status.Active? then Ok(None)
      else
        match open(config.versionId, credential)
        case Err(code) => Err(SecretFailed(code))
        case Ok(secret) =>
          Ok(Some(Input(credential.id, credential.kind, credential.revision, b.priority, b.weight, b.concurrency, secret)))
  }

  /** Over sound indexes a binding fails with exactly its declared fault and otherwise contributes its input exactly
      when eligible; both missing-Upstream exits are dead. */
  lemma ContributionMeans(config: Configuration, upstreams: map<string, Upstream>, endpoints: map<string, Endpoint>,
                          credentials: map<string, Credential>, seen: set<(string, string)>, excluded: set<string>,
                          open: Open, i: nat)
    requires i < |config.bindings| && Sound(config, upstreams, endpoints, credentials)
    requires (config.bindings[i].endpointId, config.bindings[i].credentialId) in seen <==> RepeatsPair(config.bindings, i)
    ensures var b := config.bindings[i];
            var r := Contribution(config, upstreams, endpoints, credentials, seen, excluded, open, b);
            match BindingFault(config, excluded, open, i)
            case Some(e) => r == Err(e) && e != MissingEndpointUpstream && e != MissingCredentialUpstream
            case None => r == Ok(if Eligible(config, excluded, b) then InputOf(config, open, b) else None)
  {
    hide Find, RepeatsPair;
    var b := config.bindings[i];
    assert Lookup(endpoints, b.endpointId) == Find(config.endpoints, EndpointId, b.endpointId);
    assert Lookup(credentials, b.credentialId) == Find(config.credentials, CredentialId, b.credentialId);
    if b.endpointId in endpoints && b.credentialId in credentials {
      var e, c := endpoints[b.endpointId], credentials[b.credentialId];
      assert Lookup(upstreams, e.upstreamId) == Find(config.upstreams, UpstreamId, e.upstreamId);
      assert Lookup(upstreams, c.upstreamId) == Find(config.upstreams, UpstreamId, c.upstreamId);
    }
  }

  function Pairs(bindings: seq<Binding>): set<(string, string)> {
    set i | 0 <= i < |bindings| :: (bindings[i].endpointId, bindings[i].credentialId)
  }

  /** The map holds exactly the non-empty input lists of the given bindings. */
  ghost predicate Collects(inputs: map<string, seq<Input>>, config: Configuration, excluded: set<string>, open: Open,
                           bindings: seq<Binding>)
  {
    && (forall e :: InputsAt(inputs, e) == InputsFor(config, excluded, open, bindings, e))
    && (forall e :: e in inputs ==> inputs[e] != [])
  }

  lemma NothingCollected(config: Configuration, excluded: set<string>, open: Open, bindings: seq<Binding>)
    ensures Collects(map[], config, excluded, open, bindings[..0]) && Pairs(bindings[..0]) == {}
  {
  }

  lemma InputsNext(config: Configuration, excluded: set<string>, open: Open, bindings: seq<Binding>, i: nat,
                   inputs: map<string, seq<Input>>, one: Option<Input>)
    requires i < |bindings| && Collects(inputs, config, excluded, open, bindings[..i])
    requires one == if Eligible(config, excluded, bindings[i]) then InputOf(config, open, bindings[i]) else None
    ensures var e := bindings[i].endpointId;
            var next := if one.Some? then inputs[e := InputsAt(inputs, e) + [one.value]] else inputs;
            Collects(next, config, excluded, open, bindings[..i + 1])
  {
    hide Eligible, InputOf;
    var id := bindings[i].endpointId;
    var next := if one.Some? then inputs[id := InputsAt(inputs, id) + [one.value]] else inputs;
    var before, after := bindings[..i], bindings[..i + 1];
    assert after[..i] == before;
    forall e
      ensures InputsAt(next, e) == InputsFor(config, excluded, open, after, e)
    {
      assert InputsAt(inputs, e) == InputsFor(config, excluded, open, before, e);
    }
  }

  /** Gathers the inputs of every Endpoint, binding by binding. */
  method GatherBindings(config: Configuration, excluded: set<string>, open: Open, upstreams: map<string, Upstream>,
                        endpoints: map<string, Endpoint>, credentials: map<string, Credential>)
    returns (r: Result<map<string, seq<Input>>, CompileError>)
    requires Sound(config, upstreams, endpoints, credentials)
    ensures r.Ok? ==> FirstSome(BindingFaults(config, excluded, open)).None? && r.value == Gathered(config, excluded, open)
    ensures r.Err? ==> FirstSome(BindingFaults(config, excluded, open)) == Some(r.error)
    ensures r.Err? ==> r.error != MissingEndpointUpstream && r.error != MissingCredentialUpstream
  {
    hide Contribution, Sound, BindingFault, Eligible, InputOf, Collects, Pairs, RepeatsPair, FirstSome;
    ghost var faults := BindingFaults(config, excluded, open);
    var bindings := config.bindings;
    var inputs: map<string, seq<Input>> := map[];
    var seen: set<(string, string)> := {};
    NothingCollected(config, excluded, open, bindings);
    for i := 0 to |bindings|
      invariant forall j :: 0 <= j < i ==> faults[j].None?
      invariant seen == Pairs(bindings[..i])
      invariant Collects(inputs, config, excluded, open, bindings[..i])
    {
      var b := bindings[i];
      PairsNext(bindings, i);
      ContributionMeans(config, upstreams, endpoints, credentials, seen, excluded, open, i);
      var c := Contribution(config, upstreams, endpoints, credentials, seen, excluded, open, b);
      if c.Err? {
        FirstSomeAt(faults, i);
        return Err(c.error);
      }
      seen := seen + {(b.endpointId, b.credentialId)};
      InputsNext(config, excluded, open, bindings, i, inputs, c.value);
      if c.value.Some? {
        inputs := inputs[b.endpointId := InputsAt(inputs, b.endpointId) + [c.value.value]];
      }
    }
    assert bindings[..|bindings|] == bindings;
    GatheredBy(config, excluded, open, inputs);
    r := Ok(inputs);
  }

  lemma PairsNext(bindings: seq<Binding>, i: nat)
    requires i < |bindings|
    ensures Pairs(bindings[..i + 1]) == Pairs(bindings[..i]) + {(bindings[i].endpointId, bindings[i].credentialId)}
    ensures (bindings[i].endpointId, bindings[i].credentialId) in Pairs(bindings[..i]) <==> RepeatsPair(bindings, i)
  {
    var before, after := bindings[..i], bindings[..i + 1];
    assert forall k :: 0 <= k < i ==> before[k] == bindings[k] && after[k] == bindings[k];
    assert after[i] == bindings[i];
  }

  lemma {:induction false} InputsAreBound(config: Configuration, excluded: set<string>, open: Open, bindings: seq<Binding>, e: string)
    requires InputsFor(config, excluded, open, bindings, e) != []
    ensures e in BoundEndpoints(bindings)
  {
    var n := |bindings| - 1;
    if bindings[n].endpointId != e || InputsFor(config, excluded, open, bindings[..n], e) != [] {
      InputsAreBound(config, excluded, open, bindings[..n], e);
      var i :| 0 <= i < n && bindings[..n][i].endpointId == e;
      assert bindings[i].endpointId == e;
    }
  }

  lemma GatheredBy(config: Configuration, excluded: set<string>, open: Open, inputs: map<string, seq<Input>>)
    requires Collects(inputs, config, excluded, open, config.bindings)
    ensures inputs == Gathered(config, excluded, open)
  {
    hide InputsFor;
    forall e
      ensures e in inputs <==> e in Gathered(config, excluded, open)
      ensures e in inputs ==> inputs[e] == Gathered(config, excluded, open)[e]
    {
      assert InputsAt(inputs, e) == InputsFor(config, excluded, open, config.bindings, e);
      if e in inputs { InputsAreBound(config, excluded, open, config.bindings, e); }
    }
  }

  // ---- The compiler ----

  /** Compilation up to the pool constructors succeeds exactly on well-formed graphs whose eligible secrets open, and
      otherwise reports the first fault. */
  method CompileExcluding(config: Configuration, excluded: set<string>, open: Open)
    returns (r: Result<map<string, seq<Input>>, CompileError>)
    ensures r.Ok? <==> WellFormed(config) && AllOpen(config, excluded, open)
    ensures r.Ok? ==> r.value == Gathered(config, excluded, open)
    ensures r.Err? ==> Refusal(config, excluded, open) == Some(r.error)
  {
    hide WellFormed, AllOpen, Gathered, Indexes, UpstreamFaults, EndpointFaults, CredentialFaults, BindingFaults, FirstSome;
    RefusedIff(config, excluded, open);
    var upstreams := IndexUpstreams(config);
    if upstreams.Err? {
      return Err(upstreams.error);
    }
    var endpoints := IndexEndpoints(config, upstreams.value);
    if endpoints.Err? {
      return Err(endpoints.error);
    }
    var credentials := IndexCredentials(config, upstreams.value);
    if credentials.Err? {
      return Err(credentials.error);
    }
    IndexesAreSound(config, upstreams.value, endpoints.value, credentials.value);
    r := GatherBindings(config, excluded, open, upstreams.value, endpoints.value, credentials.value);
  }

  lemma IndexesAreSound(config: Configuration, upstreams: map<string, Upstream>, endpoints: map<string, Endpoint>,
                        credentials: map<string, Credential>)
    requires Indexes(upstreams, config.upstreams, UpstreamId)
    requires Indexes(endpoints, config.endpoints, EndpointId) && FirstSome(EndpointFaults(config)).None?
    requires Indexes(credentials, config.credentials, CredentialId) && FirstSome(CredentialFaults(config)).None?
    ensures Sound(config, upstreams, endpoints, credentials)
  {
    hide Find;
    forall e | e in endpoints
      ensures endpoints[e].upstreamId in upstreams
    {
      assert Lookup(endpoints, e) == Find(config.endpoints, EndpointId, e);
      Found(config.endpoints, EndpointId, e);
      var i :| 0 <= i < |config.endpoints| && config.endpoints[i] == endpoints[e];
      assert EndpointFaults(config)[i].None?;
      IndexAnswers(upstreams, config.upstreams, UpstreamId, endpoints[e].upstreamId);
    }
    forall c | c in credentials
      ensures credentials[c].upstreamId in upstreams
    {
      assert Lookup(credentials, c) == Find(config.credentials, CredentialId, c);
      Found(config.credentials, CredentialId, c);
      var i :| 0 <= i < |config.credentials| && config.credentials[i] == credentials[c];
      assert CredentialFaults(config)[i].None?;
      IndexAnswers(upstreams, config.upstreams, UpstreamId, credentials[c].upstreamId);
    }
  }

  method Compile(config: Configuration, open: Open) returns (r: Result<map<string, seq<Input>>, CompileError>)
    ensures r.Ok? <==> WellFormed(config) && AllOpen(config, {}, open)
    ensures r.Ok? ==> r.value == Gathered(config, {}, open)
  {
    r := CompileExcluding(config, {}, open);
  }

  // ---- What a compiled pool contains ----

  predicate UpstreamOn(config: Configuration, id: string) {
    exists u :: u in config.upstreams && u.id == id && u.enabled
  }

  /** Everything the binding joins is switched on, its Credential is active, and its Endpoint is not excluded. */
  predicate LiveWith(config: Configuration, excluded: set<string>, b: Binding, e: Endpoint, c: Credential) {
    && b.enabled && b.endpointId !in excluded
    && e in config.endpoints && e.id == b.endpointId && e.enabled && UpstreamOn(config, e.upstreamId)
    && c in config.credentials && c.id == b.credentialId && c.status == Active && UpstreamOn(config, c.upstreamId)
  }

  ghost predicate Live(config: Configuration, excluded: set<string>, b: Binding) {
    exists e, c :: LiveWith(config, excluded, b, e, c)
  }

  /** The input carries its binding's settings and its Credential's identity, kind, revision and opened secret. */
  ghost predicate Carries(config: Configuration, open: Open, b: Binding, input: Input) {
    && input.priority == b.priority && input.weight == b.weight && input.concurrency == b.concurrency
    && input.credentialId == b.credentialId
    && exists c :: && c in config.credentials && c.id == b.credentialId
                   && input.kind == c.kind && input.revision == c.revision
                   && open(config.versionId, c) == Ok(input.secret)
  }

  lemma UpstreamOnMeans(config: Configuration, id: string)
    requires DistinctKeys(config.upstreams, UpstreamId)
    ensures UpstreamEnabled(config, id) <==> UpstreamOn(config, id)
  {
    forall u
      ensures Find(config.upstreams, UpstreamId, id) == Some(u) <==> u in config.upstreams && u.id == id
    {
      FoundIff(config.upstreams, UpstreamId, id, u);
    }
  }

  lemma EligibleMeans(config: Configuration, excluded: set<string>, b: Binding)
    requires WellFormed(config)
    ensures Eligible(config, excluded, b) <==> Live(config, excluded, b)
  {
    hide Find, UpstreamOn, UpstreamEnabled, DistinctKeys;
    forall id
      ensures UpstreamEnabled(config, id) <==> UpstreamOn(config, id)
    {
      UpstreamOnMeans(config, id);
    }
    forall e
      ensures Find(config.endpoints, EndpointId, b.endpointId) == Some(e) <==> e in config.endpoints && e.id == b.endpointId
    {
      FoundIff(config.endpoints, EndpointId, b.endpointId, e);
    }
    forall c
      ensures Find(config.credentials, CredentialId, b.credentialId) == Some(c) <==> c in config.credentials && c.id == b.credentialId
    {
      FoundIff(config.credentials, CredentialId, b.credentialId, c);
    }
    if Eligible(config, excluded, b) {
      var e, c := Find(config.endpoints, EndpointId, b.endpointId).value, Find(config.credentials, CredentialId, b.credentialId).value;
      assert LiveWith(config, excluded, b, e, c);
    }
  }

  lemma InputCarries(config: Configuration, open: Open, b: Binding)
    requires InputOf(config, open, b).Some?
    ensures Carries(config, open, b, InputOf(config, open, b).value)
  {
    hide Find;
    Found(config.credentials, CredentialId, b.credentialId);
  }

  /** The positions of the bindings an Endpoint's pool is made of, among the first `n`. */
  ghost predicate Positions(config: Configuration, excluded: set<string>, e: string, n: nat, at: seq<nat>)
    requires n <= |config.bindings|
  {
    && (forall j, k :: 0 <= j < k < |at| ==> at[j] < at[k])
    && (forall k :: 0 <= k < |at| ==> at[k] < n)
    && (forall i :: 0 <= i < n ==> (i in at <==> config.bindings[i].endpointId == e && Live(config, excluded, config.bindings[i])))
  }

  lemma PositionsNext(config: Configuration, excluded: set<string>, e: string, n: nat, at: seq<nat>)
    requires n < |config.bindings| && Positions(config, excluded, e, n, at)
    ensures var b := config.bindings[n];
            Positions(config, excluded, e, n + 1, if b.endpointId == e && Live(config, excluded, b) then at + [n] else at)
  {
    hide Live;
  }

  /** The pool gathered from the first `n` bindings carries the bindings at these positions. */
  ghost predicate PooledFrom(config: Configuration, excluded: set<string>, open: Open, e: string, n: nat, at: seq<nat>)
    requires n <= |config.bindings|
  {
    var pool := InputsFor(config, excluded, open, config.bindings[..n], e);
    && |pool| == |at|
    && (forall k :: 0 <= k < |at| ==> at[k] < |config.bindings|)
    && forall k :: 0 <= k < |at| ==> Carries(config, open, config.bindings[at[k]], pool[k])
  }

  lemma NothingPooled(config: Configuration, excluded: set<string>, open: Open, e: string)
    ensures Positions(config, excluded, e, 0, []) && PooledFrom(config, excluded, open, e, 0, [])
  {
  }

  lemma PooledNext(config: Configuration, excluded: set<string>, open: Open, e: string, n: nat, at: seq<nat>)
    requires WellFormed(config) && AllOpen(config, excluded, open) && n < |config.bindings|
    requires PooledFrom(config, excluded, open, e, n, at)
    ensures var b := config.bindings[n];
            PooledFrom(config, excluded, open, e, n + 1, if b.endpointId == e && Live(config, excluded, b) then at + [n] else at)
  {
    hide WellFormed, AllOpen, Eligible, InputOf, Carries, Live;
    var b := config.bindings[n];
    assert config.bindings[..n + 1][..n] == config.bindings[..n];
    EligibleMeans(config, excluded, b);
    if b.endpointId == e && Live(config, excluded, b) {
      EligibleOpens(config, excluded, open, n);
      InputCarries(config, open, b);
    }
  }

  lemma {:induction false} PoolUpTo(config: Configuration, excluded: set<string>, open: Open, e: string, n: nat) returns (at: seq<nat>)
    requires WellFormed(config) && AllOpen(config, excluded, open) && n <= |config.bindings|
    ensures Positions(config, excluded, e, n, at) && PooledFrom(config, excluded, open, e, n, at)
  {
    hide WellFormed, AllOpen, Live, Positions, PooledFrom;
    if n == 0 {
      at := [];
      NothingPooled(config, excluded, open, e);
    } else {
      at := PoolUpTo(config, excluded, open, e, n - 1);
      PositionsNext(config, excluded, e, n - 1, at);
      PooledNext(config, excluded, open, e, n - 1, at);
      var b := config.bindings[n - 1];
      at := if b.endpointId == e && Live(config, excluded, b) then at + [n - 1] else at;
    }
  }

  lemma EligibleOpens(config: Configuration, excluded: set<string>, open: Open, i: nat)
    requires AllOpen(config, excluded, open) && i < |config.bindings| && Eligible(config, excluded, config.bindings[i])
    ensures InputOf(config, open, config.bindings[i]).Some?
  {
    hide Find;
  }

  /** A compiled pool, field by field: one input for each live binding of the Endpoint, in configuration order, with the
      binding's priority, weight and concurrency and the Credential's identity, kind, revision and secret. */
  lemma PoolMeans(config: Configuration, excluded: set<string>, open: Open, e: string) returns (at: seq<nat>)
    requires WellFormed(config) && AllOpen(config, excluded, open)
    ensures Positions(config, excluded, e, |config.bindings|, at)
    ensures e in Gathered(config, excluded, open) <==> at != []
    ensures e in Gathered(config, excluded, open) ==>
            var pool := Gathered(config, excluded, open)[e];
            && |pool| == |at|
            && forall k :: 0 <= k < |at| ==> Carries(config, open, config.bindings[at[k]], pool[k])
  {
    hide WellFormed, AllOpen, Positions, Carries, InputsFor;
    at := PoolUpTo(config, excluded, open, e, |config.bindings|);
    assert config.bindings[..|config.bindings|] == config.bindings;
    if InputsFor(config, excluded, open, config.bindings, e) != [] {
      InputsAreBound(config, excluded, open, config.bindings, e);
    }
  }

  // ---- What each error means ----

  ghost predicate Cause(config: Configuration, excluded: set<string>, open: Open, error: CompileError) {
    match error
    case DuplicateUpstream => !DistinctKeys(config.upstreams, UpstreamId)
    case DuplicateEndpoint => !DistinctKeys(config.endpoints, EndpointId)
    case DuplicateCredential => !DistinctKeys(config.credentials, CredentialId)
    case DuplicateBinding => !DistinctPairs(config.bindings)
    case MissingEndpointUpstream => exists e :: e in config.endpoints && forall u :: u in config.upstreams ==> u.id != e.upstreamId
    case MissingCredentialUpstream => exists c :: c in config.credentials && forall u :: u in config.upstreams ==> u.id != c.upstreamId
    case MissingBindingEndpoint => exists b :: b in config.bindings && forall e :: e in config.endpoints ==> e.id != b.endpointId
    case MissingBindingCredential => exists b :: b in config.bindings && forall c :: c in config.credentials ==> c.id != b.credentialId
    case BindingUpstreamMismatch =>
      exists b, e, c :: && b in config.bindings && e in config.endpoints && c in config.credentials
                        && e.id == b.endpointId && c.id == b.credentialId
                        && (e.upstreamId != b.upstreamId || c.upstreamId != b.upstreamId)
    case SecretFailed(code) =>
      exists b, c :: && b in config.bindings && Eligible(config, excluded, b)
                     && c in config.credentials && c.id == b.credentialId && open(config.versionId, c) == Err(code)
  }

  lemma NotFound<T>(all: seq<T>, key: T -> string, id: string)
    requires Find(all, key, id).None?
    ensures forall x :: x in all ==> key(x) != id
  {
    Found(all, key, id);
  }

  lemma EndpointCause(config: Configuration, excluded: set<string>, open: Open, i: nat)
    requires i < |config.endpoints| && EndpointFault(config, i).Some?
    ensures Cause(config, excluded, open, EndpointFault(config, i).value)
  {
    hide Find, Repeats, DistinctKeys;
    NoRepeats(config.endpoints, EndpointId);
    var e := config.endpoints[i];
    if Find(config.upstreams, UpstreamId, e.upstreamId).None? { NotFound(config.upstreams, UpstreamId, e.upstreamId); }
  }

  lemma CredentialCause(config: Configuration, excluded: set<string>, open: Open, i: nat)
    requires i < |config.credentials| && CredentialFault(config, i).Some?
    ensures Cause(config, excluded, open, CredentialFault(config, i).value)
  {
    hide Find, Repeats, DistinctKeys;
    NoRepeats(config.credentials, CredentialId);
    var c := config.credentials[i];
    if Find(config.upstreams, UpstreamId, c.upstreamId).None? { NotFound(config.upstreams, UpstreamId, c.upstreamId); }
  }

  lemma BindingCause(config: Configuration, excluded: set<string>, open: Open, i: nat)
    requires i < |config.bindings| && BindingFault(config, excluded, open, i).Some?
    ensures Cause(config, excluded, open, BindingFault(config, excluded, open, i).value)
  {
    hide Find, Eligible;
    var b := config.bindings[i];
    Found(config.endpoints, EndpointId, b.endpointId);
    Found(config.credentials, CredentialId, b.credentialId);
    assert b in config.bindings;
  }

  /** Every error names a fault the configuration really has. */
  lemma RefusalNamesCause(config: Configuration, excluded: set<string>, open: Open)
    requires Refusal(config, excluded, open).Some?
    ensures Cause(config, excluded, open, Refusal(config, excluded, open).value)
  {
    hide Cause, EndpointFault, CredentialFault, BindingFault, FirstSome;
    var u, e := FirstSome(UpstreamFaults(config)), FirstSome(EndpointFaults(config));
    var c, b := FirstSome(CredentialFaults(config)), FirstSome(BindingFaults(config, excluded, open));
    if u.Some? {
      var i :| 0 <= i < |config.upstreams| && UpstreamFaults(config)[i] == u;
      UpstreamCause(config, excluded, open, i);
    } else if e.Some? {
      var i :| 0 <= i < |config.endpoints| && EndpointFaults(config)[i] == e;
      EndpointCause(config, excluded, open, i);
    } else if c.Some? {
      var i :| 0 <= i < |config.credentials| && CredentialFaults(config)[i] == c;
      CredentialCause(config, excluded, open, i);
    } else {
      var i :| 0 <= i < |config.bindings| && BindingFaults(config, excluded, open)[i] == b;
      BindingCause(config, excluded, open, i);
    }
  }

  /** Which phase refuses: repeated Upstreams first, then Endpoints, then Credentials, then bindings and their secrets. */
  lemma RefusalPhases(config: Configuration, excluded: set<string>, open: Open)
    ensures var upstreams := DistinctKeys(config.upstreams, UpstreamId);
            var endpoints := && DistinctKeys(config.endpoints, EndpointId)
                             && (forall i :: 0 <= i < |config.endpoints| ==> Find(config.upstreams, UpstreamId, config.endpoints[i].upstreamId).Some?);
            var credentials := && DistinctKeys(config.credentials, CredentialId)
                               && (forall i :: 0 <= i < |config.credentials| ==> Find(config.upstreams, UpstreamId, config.credentials[i].upstreamId).Some?);
            var r := Refusal(config, excluded, open);
            && (!upstreams <==> r == Some(DuplicateUpstream))
            && (upstreams && !endpoints ==> r in {Some(MissingEndpointUpstream), Some(DuplicateEndpoint)})
            && (upstreams && endpoints && !credentials ==> r in {Some(MissingCredentialUpstream), Some(DuplicateCredential)})
            && (upstreams && endpoints && credentials ==> r == FirstSome(BindingFaults(config, excluded, open)))
  {
    hide Find, DistinctKeys, Repeats, FirstSome, BindingFault;
    NoRepeats(config.upstreams, UpstreamId);
    NoRepeats(config.endpoints, EndpointId);
    NoRepeats(config.credentials, CredentialId);
    UpstreamsFineMeans(config);
    EndpointsFineMeans(config);
    CredentialsFineMeans(config);
    FaultKinds(config, excluded, open);
    hide UpstreamFaults, EndpointFaults, CredentialFaults, BindingFaults;
  }

  lemma FaultKinds(config: Configuration, excluded: set<string>, open: Open)
    ensures FirstSome(UpstreamFaults(config)) in {None, Some(DuplicateUpstream)}
    ensures FirstSome(EndpointFaults(config)) in {None, Some(MissingEndpointUpstream), Some(DuplicateEndpoint)}
    ensures FirstSome(CredentialFaults(config)) in {None, Some(MissingCredentialUpstream), Some(DuplicateCredential)}
    ensures FirstSome(BindingFaults(config, excluded, open)) != Some(DuplicateUpstream)
  {
    hide Find, Repeats, RepeatsPair, Owned, Eligible, Opened;
    FirstSomeIn(UpstreamFaults(config));
    FirstSomeIn(EndpointFaults(config));
    FirstSomeIn(CredentialFaults(config));
    FirstSomeIn(BindingFaults(config, excluded, open));
    hide FirstSome;
  }

  lemma FirstSomeIn<E>(checks: seq<Option<E>>)
    ensures FirstSome(checks).Some? ==> exists i :: 0 <= i < |checks| && checks[i] == FirstSome(checks)
  {
  }

  lemma UpstreamCause(config: Configuration, excluded: set<string>, open: Open, i: nat)
    requires i < |config.upstreams| && UpstreamFault(config, i).Some?
    ensures Cause(config, excluded, open, UpstreamFault(config, i).value)
  {
    hide Repeats, DistinctKeys;
    NoRepeats(config.upstreams, UpstreamId);
  }

  /** Every pooled input comes from an eligible binding of that Endpoint, and its Credential shares the Endpoint's Upstream. */
  lemma {:induction false} PooledInputsShareUpstream(config: Configuration, excluded: set<string>, open: Open, bindings: seq<Binding>, e: string, k: nat)
    requires forall i :: 0 <= i < |bindings| ==> Owned(config, bindings[i])
    requires k < |InputsFor(config, excluded, open, bindings, e)|
    ensures exists b :: && b in bindings && b.endpointId == e && Eligible(config, excluded, b)
                        && InputOf(config, open, b) == Some(InputsFor(config, excluded, open, bindings, e)[k])
                        && Find(config.endpoints, EndpointId, e).value.upstreamId
                           == Find(config.credentials, CredentialId, b.credentialId).value.upstreamId
  {
    var n := |bindings| - 1;
    var earlier := InputsFor(config, excluded, open, bindings[..n], e);
    if k < |earlier| {
      PooledInputsShareUpstream(config, excluded, open, bindings[..n], e, k);
    } else {
      assert bindings[n] in bindings && Owned(config, bindings[n]);
    }
  }

  /** Leaving Endpoints out drops their inputs and changes no others. */
  lemma {:induction false} ExclusionRestricts(config: Configuration, excluded: set<string>, open: Open, bindings: seq<Binding>, e: string)
    ensures InputsFor(config, excluded, open, bindings, e) ==
            if e in excluded then [] else InputsFor(config, {}, open, bindings, e)
  {
    if bindings != [] {
      ExclusionRestricts(config, excluded, open, bindings[..|bindings| - 1], e);
    }
  }

  /** If the full compilation gathers its inputs, the excluding one gathers the same inputs minus the excluded Endpoints. */
  lemma ExcludingCompileRestrictsFull(config: Configuration, excluded: set<string>, open: Open)
    requires WellFormed(config) && AllOpen(config, {}, open)
    ensures AllOpen(config, excluded, open)
    ensures Gathered(config, excluded, open) == Gathered(config, {}, open) - excluded
  {
    hide InputsFor;
    forall e
      ensures InputsFor(config, excluded, open, config.bindings, e) ==
              if e in excluded then [] else InputsFor(config, {}, open, config.bindings, e)
    {
      ExclusionRestricts(config, excluded, open, config.bindings, e);
    }
  }

  // ---- Switches cannot hide a malformed graph ----

  /** The same rows and references, with any enabled flags, statuses, weights or secrets. */
  predicate SameStructure(a: Configuration, b: Configuration) {
    && |a.upstreams| == |b.upstreams| && |a.endpoints| == |b.endpoints|
    && |a.credentials| == |b.credentials| && |a.bindings| == |b.bindings|
    && (forall i :: 0 <= i < |a.upstreams| ==> a.upstreams[i].id == b.upstreams[i].id)
    && (forall i :: 0 <= i < |a.endpoints| ==> a.endpoints[i].id == b.endpoints[i].id && a.endpoints[i].upstreamId == b.endpoints[i].upstreamId)
    && (forall i :: 0 <= i < |a.credentials| ==>
          a.credentials[i].id == b.credentials[i].id && a.credentials[i].upstreamId == b.credentials[i].upstreamId)
    && (forall i :: 0 <= i < |a.bindings| ==>
          && a.bindings[i].endpointId == b.bindings[i].endpointId
          && a.bindings[i].credentialId == b.bindings[i].credentialId
          && a.bindings[i].upstreamId == b.bindings[i].upstreamId)
  }

  /** Rows that agree on identity and on some reference are found alike. */
  lemma {:induction false} FoundAlike<T>(a: seq<T>, b: seq<T>, key: T -> string, ref: T -> string, id: string)
    requires |a| == |b| && forall i :: 0 <= i < |a| ==> key(a[i]) == key(b[i]) && ref(a[i]) == ref(b[i])
    ensures Find(a, key, id).Some? <==> Find(b, key, id).Some?
    ensures Find(a, key, id).Some? ==> ref(Find(a, key, id).value) == ref(Find(b, key, id).value)
  {
    if a != [] { FoundAlike(a[..|a| - 1], b[..|b| - 1], key, ref, id); }
  }

  function EndpointRef(e: Endpoint): string { e.upstreamId }
  function CredentialRef(c: Credential): string { c.upstreamId }

  lemma StructureImplies(a: Configuration, b: Configuration)
    requires SameStructure(a, b) && WellFormed(a)
    ensures WellFormed(b)
  {
    hide Find;
    forall id
      ensures Find(a.upstreams, UpstreamId, id).Some? <==> Find(b.upstreams, UpstreamId, id).Some?
    {
      FoundAlike(a.upstreams, b.upstreams, UpstreamId, UpstreamId, id);
    }
    forall i | 0 <= i < |b.bindings|
      ensures Owned(b, b.bindings[i])
    {
      assert Owned(a, a.bindings[i]);
      FoundAlike(a.endpoints, b.endpoints, EndpointId, EndpointRef, b.bindings[i].endpointId);
      FoundAlike(a.credentials, b.credentials, CredentialId, CredentialRef, b.bindings[i].credentialId);
    }
  }

  /** No setting of flags, statuses, secrets or exclusions makes a malformed graph compile, and none makes a
      well-formed one malformed. */
  lemma SwitchesCannotHideMalformed(a: Configuration, b: Configuration, excluded: set<string>, open: Open)
    requires SameStructure(a, b)
    ensures WellFormed(a) <==> WellFormed(b)
    ensures Refusal(b, excluded, open).None? <==> WellFormed(a) && AllOpen(b, excluded, open)
  {
    hide WellFormed, Refusal, AllOpen;
    if WellFormed(a) { StructureImplies(a, b); }
    if WellFormed(b) { StructureImplies(b, a); }
    RefusedIff(b, excluded, open);
  }
}
