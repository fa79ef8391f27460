/** Runtime model settings laid over the environment's configuration: which endpoint
    and model each step uses, and its pin. The overlay is specified on values here;
    module StepConfig carries it out on shared, mutable objects. */
module StepSettings {
  import opened Optional

  datatype Step = Propose | Decide | Scan | Embed

  datatype Kind = Chat | SystemOne | Embeddings

  datatype Source = FromOverride | FromDb | FromEnv

  /** rest stands for the connection data a synthesized entry copies unchanged. */
  datatype Endpoint = Endpoint(id: string, kind: Kind, model: string, baseId: string, rest: string) {
    predicate Synthesized() { baseId != "" }
  }

  type Params = map<string, string>

  datatype Pin = Pin(aliasName: string, expected: string, revision: string, promptVersion: string, params: Option<Params>)

  const NO_PIN := Pin("", "", "", "", None)

  datatype Setting = Setting(step: Option<Step>, endpointId: string, model: string, expected: string, revision: string, params: Params, source: Source)

  /** The checks defined elsewhere in the configuration package. */
  datatype Rules = Rules(
    pinnedModel: string -> bool,
    routeOk: (Endpoint, string) -> bool,
    paramsOk: (Step, Params) -> bool,
    isPolicy: string -> bool)

  datatype EnvStep = EnvStep(endpoint: string, model: string, pin: Pin)

  datatype View = View(
    endpoints: seq<Endpoint>,
    binds: map<Step, string>,
    pins: map<Step, Pin>,
    stepSources: map<Step, Source>,
    policySources: map<Step, Source>)

  // ---- Lookups -------------------------------------------------------------

  function Find(eps: seq<Endpoint>, id: string): (r: Option<Endpoint>)
    ensures r.Some? ==> r.value in eps && r.value.id == id
    ensures r.None? ==> forall e :: e in eps ==> e.id != id
  {
    if eps == [] then None
    else if eps[0].id == id then Some(eps[0])
    else
      assert eps == [eps[0]] + eps[1..];
      Find(eps[1..], id)
  }

  /** The endpoint a step's role is bound to. */
  function EndpointOf(v: View, t: Step): Option<Endpoint>
  {
    if t in v.binds && v.binds[t] != "" then Find(v.endpoints, v.binds[t]) else None
  }

  /** An AI_ENDPOINTS entry, never a synthesized one. */
  function Registered(eps: seq<Endpoint>, id: string): (r: Option<Endpoint>)
    ensures r.Some? ==> r.value in eps && r.value.id == id && !r.value.Synthesized()
    ensures r.None? ==> forall e :: e in eps ==> e.id != id || e.Synthesized()
  {
    if eps == [] then None
    else if eps[0].id == id && !eps[0].Synthesized() then Some(eps[0])
    else
      assert eps == [eps[0]] + eps[1..];
      Registered(eps[1..], id)
  }

  function PinOf(v: View, t: Step): Pin { if t in v.pins then v.pins[t] else NO_PIN }

  function KindOf(t: Step): Kind
  {
    match t
    case Propose => Chat
    case Decide => SystemOne
    case Scan => SystemOne
    case Embed => Embeddings
  }

  // ---- Text ----------------------------------------------------------------

  predicate IsSpace(c: char) { c == ' ' || c == '\t' || c == '\r' || c == '\n' }

  function Trim(s: string): (r: string)
    ensures r == "" || (!IsSpace(r[0]) && !IsSpace(r[|r| - 1]))
    ensures s != "" && !IsSpace(s[0]) && !IsSpace(s[|s| - 1]) ==> r == s
  {
    if s != "" && IsSpace(s[0]) then Trim(s[1..])
    else if s != "" && IsSpace(s[|s| - 1]) then Trim(s[..|s| - 1])
    else s
  }

  predicate HasSpace(s: string) { exists k :: 0 <= k < |s| && IsSpace(s[k]) }

  function StepName(t: Step): string
  {
    match t
    case Propose => "propose"
    case Decide => "decide"
    case Scan => "scan"
    case Embed => "embed"
  }

  function Decimal(n: nat): (s: string)
    ensures |s| > 0
  {
    if n < 10 then [('0' as int + n) as char] else Decimal(n / 10) + [('0' as int + n % 10) as char]
  }

  lemma {:induction false} DecimalIsOneToOne(m: nat, n: nat)
    requires Decimal(m) == Decimal(n)
    ensures m == n
  {
    var s, t := Decimal(m), Decimal(n);
    assert (m < 10 <==> |s| == 1) && (n < 10 <==> |t| == 1);
    assert s[|s| - 1] == t[|t| - 1];
    assert m % 10 == n % 10;
    if m >= 10 {
      assert s[..|s| - 1] == Decimal(m / 10) && t[..|t| - 1] == Decimal(n / 10);
      DecimalIsOneToOne(m / 10, n / 10);
    }
  }

  // ---- Synthesized endpoints -----------------------------------------------

  /** The i-th name tried for a step's copy of an endpoint. */
  function DerivedId(id: string, t: Step, i: nat): string
  {
    id + "@" + StepName(t) + (if i <= 1 then "" else "-" + Decimal(i))
  }

  function Ids(eps: seq<Endpoint>): set<string> { set e | e in eps :: e.id }

  function Tried(id: string, t: Step, i: nat): set<string> { set k | 1 <= k < i :: DerivedId(id, t, k) }

  lemma DerivedIdsDiffer(id: string, t: Step, i: nat, k: nat)
    requires 1 <= k < i
    ensures DerivedId(id, t, i) != DerivedId(id, t, k)
  {
    var base := id + "@" + StepName(t);
    if DerivedId(id, t, i) == DerivedId(id, t, k) {
      assert DerivedId(id, t, i)[|base| + 1..] == Decimal(i);
      if k > 1 {
        assert DerivedId(id, t, k)[|base| + 1..] == Decimal(k);
        DecimalIsOneToOne(i, k);
      }
    }
  }

  /** The next taken name leaves one name fewer to try. */
  lemma NamesRunOut(eps: seq<Endpoint>, id: string, t: Step, i: nat)
    requires i >= 1 && DerivedId(id, t, i) in Ids(eps)
    ensures |Ids(eps) - Tried(id, t, i + 1)| < |Ids(eps) - Tried(id, t, i)|
  {
    hide DerivedId;
    var name := DerivedId(id, t, i);
    forall k | 1 <= k < i
      ensures DerivedId(id, t, k) != name
    {
      DerivedIdsDiffer(id, t, i, k);
    }
    assert Tried(id, t, i + 1) == Tried(id, t, i) + {name};
    SetShrinks(Ids(eps), Tried(id, t, i), name);
  }

  lemma SetShrinks(all: set<string>, tried: set<string>, name: string)
    requires name in all && name !in tried
    ensures |all - (tried + {name})| < |all - tried|
  {
    assert all - (tried + {name}) == (all - tried) - {name};
  }

  /** The first name not taken, from the i-th on. */
  function FreshIdFrom(eps: seq<Endpoint>, id: string, t: Step, i: nat): (r: string)
    requires i >= 1
    ensures r !in Ids(eps) && r != ""
    decreases |Ids(eps) - Tried(id, t, i)|
  {
    if DerivedId(id, t, i) !in Ids(eps) then DerivedId(id, t, i)
    else
      NamesRunOut(eps, id, t, i);
      FreshIdFrom(eps, id, t, i + 1)
  }

  function Delete(eps: seq<Endpoint>, id: string): (r: seq<Endpoint>)
    ensures forall e :: e in r <==> e in eps && e.id != id
  {
    if eps == [] then []
    else
      assert eps == [eps[0]] + eps[1..];
      (if eps[0].id == id then [] else [eps[0]]) + Delete(eps[1..], id)
  }

  // ---- The overlay, setting by setting -------------------------------------

  /** Reasons a setting is refused; a refused setting changes nothing. */
  predicate Accepts(r: Rules, eps: seq<Endpoint>, s: Setting)
  {
    var id, model := Trim(s.endpointId), Trim(s.model);
    && s.step.Some? && id != ""
    && var ep := Registered(eps, id);
    && ep.Some? && ep.value.kind == KindOf(s.step.value)
    && model != "" && !HasSpace(model)
    && (ep.value.kind == SystemOne ==> r.pinnedModel(model) && r.routeOk(ep.value, model))
    && !HasSpace(Trim(s.expected)) && !HasSpace(Trim(s.revision))
    && r.paramsOk(s.step.value, s.params)
  }

  /** Why a setting is refused: the first check it fails. */
  datatype Problem =
    | UnknownStep | NoEndpoint | NotRegistered | WrongKind | NoModel | SpaceInModel
    | NotPinned | RouteRefused | SpaceInPin | UnknownParams

  function Check(r: Rules, eps: seq<Endpoint>, s: Setting): Option<Problem>
  {
    var id, model := Trim(s.endpointId), Trim(s.model);
    if s.step.None? then Some(UnknownStep)
    else if id == "" then Some(NoEndpoint)
    else
      var ep := Registered(eps, id);
      if ep.None? then Some(NotRegistered)
      else if ep.value.kind != KindOf(s.step.value) then Some(WrongKind)
      else if model == "" then Some(NoModel)
      else if HasSpace(model) then Some(SpaceInModel)
      else if ep.value.kind == SystemOne && !r.pinnedModel(model) then Some(NotPinned)
      else if ep.value.kind == SystemOne && !r.routeOk(ep.value, model) then Some(RouteRefused)
      else if HasSpace(Trim(s.expected)) || HasSpace(Trim(s.revision)) then Some(SpaceInPin)
      else if !r.paramsOk(s.step.value, s.params) then Some(UnknownParams)
      else None
  }

  /** A setting is accepted exactly when no check fails. */
  lemma CheckDecides(r: Rules, eps: seq<Endpoint>, s: Setting)
    ensures Check(r, eps, s).None? <==> Accepts(r, eps, s)
  {
    hide Trim, HasSpace, Registered;
  }

  const WHITESPACE := {' ', '\t', '\r', '\n'}

  ghost predicate IsBlank(s: string) { forall c :: c in s ==> c in WHITESPACE }

  /** Trimming takes away whitespace at both ends and nothing else ... */
  lemma {:induction false} TrimTakesEnds(s: string) returns (left: string, right: string)
    ensures s == left + Trim(s) + right && IsBlank(left) && IsBlank(right)
  {
    hide Trim, IsBlank, IsSpace;
    left, right := "", "";
    TrimEdges(s);
    if s != "" && IsSpace(s[0]) {
      left, right := TrimTakesEnds(s[1..]);
      BlankGrows(s[0], left);
      assert s == [s[0]] + s[1..];
      left := [s[0]] + left;
    } else if s != "" && IsSpace(s[|s| - 1]) {
      left, right := TrimTakesEnds(s[..|s| - 1]);
      BlankGrows(s[|s| - 1], right);
      assert s == s[..|s| - 1] + [s[|s| - 1]];
      right := right + [s[|s| - 1]];
    } else {
      assert left + s + right == s;
    }
  }

  lemma TrimEdges(s: string)
    ensures s != "" && IsSpace(s[0]) ==> Trim(s) == Trim(s[1..])
    ensures s != "" && !IsSpace(s[0]) && IsSpace(s[|s| - 1]) ==> Trim(s) == Trim(s[..|s| - 1])
    ensures s == "" || (!IsSpace(s[0]) && !IsSpace(s[|s| - 1])) ==> Trim(s) == s
    ensures IsBlank("")
  {
  }

  lemma BlankGrows(c: char, s: string)
    requires IsSpace(c) && IsBlank(s)
    ensures IsBlank([c] + s) && IsBlank(s + [c])
  {
  }

  /** ... and all of it. */
  lemma TrimLeavesNone(s: string)
    ensures Trim(s) != "" ==> Trim(s)[0] !in WHITESPACE && Trim(s)[|Trim(s)| - 1] !in WHITESPACE
  {
  }

  /** An accepted setting names a model, and no name it gives holds whitespace but at its
      ends. */
  lemma AcceptedNamesAreClean(r: Rules, eps: seq<Endpoint>, s: Setting)
    requires Accepts(r, eps, s)
    ensures Trim(s.model) != ""
    ensures forall c :: c in Trim(s.model) + Trim(s.expected) + Trim(s.revision) ==> c !in WHITESPACE
  {
    hide Trim, Registered;
    NoSpace(Trim(s.model));
    NoSpace(Trim(s.expected));
    NoSpace(Trim(s.revision));
  }

  lemma NoSpace(s: string)
    requires !HasSpace(s)
    ensures forall c :: c in s ==> c !in WHITESPACE
  {
    forall c | c in s
      ensures c !in WHITESPACE
    {
      var k :| 0 <= k < |s| && s[k] == c;
      assert !IsSpace(s[k]);
    }
  }

  function PinParams(r: Rules, p: Params): Params { map k | k in p && !r.isPolicy(k) :: p[k] }

  function PolicyParams(r: Rules, p: Params): Params { map k | k in p && r.isPolicy(k) :: p[k] }

  predicate HasPin(r: Rules, s: Setting)
  {
    s.expected != "" || s.revision != "" || |PinParams(r, s.params)| > 0
  }

  /** The step already runs this endpoint and model. */
  predicate Unchanged(v: View, t: Step, id: string, model: string)
  {
    var cur := EndpointOf(v, t);
    cur.Some? && cur.value.model == model && (cur.value.id == id || cur.value.baseId == id)
  }

  function IfAny(p: Params): Option<Params> { if |p| == 0 then None else Some(p) }

  /** The entries left once the step's own copy is deleted. */
  function WithoutOwn(v: View, t: Step): seq<Endpoint>
  {
    var cur := EndpointOf(v, t);
    if cur.Some? && cur.value.Synthesized() then Delete(v.endpoints, cur.value.id) else v.endpoints
  }

  /** Rebinding drops the step's own synthesized entry and adds at most one. */
  function Rebind(v: View, t: Step, base: Endpoint, model: string): View
  {
    var eps := WithoutOwn(v, t);
    if base.model != model then
      var derived := base.(id := FreshIdFrom(eps, base.id, t, 1), model := model, baseId := base.id);
      v.(endpoints := eps + [derived], binds := v.binds[t := derived.id])
    else v.(endpoints := eps, binds := v.binds[t := base.id])
  }

  predicate IsEnvBinding(env: map<Step, EnvStep>, t: Step, id: string, model: string)
  {
    t in env && env[t].endpoint != "" && env[t].endpoint == id && env[t].model == model
  }

  /** The pin that results when the step's endpoint or model changes, or is pinned. */
  function Repin(r: Rules, v: View, env: map<Step, EnvStep>, s: Setting, t: Step): View
  {
    if IsEnvBinding(env, t, Trim(s.endpointId), Trim(s.model)) && !HasPin(r, s) then
      v.(pins := v.pins[t := env[t].pin], policySources := v.policySources[t := FromEnv])
    else
      var pin := Pin("", Trim(s.expected), Trim(s.revision), PinOf(v, t).promptVersion, IfAny(PinParams(r, s.params)));
      v.(pins := v.pins[t := pin], policySources := v.policySources[t := s.source])
  }

  /** Policy keys are laid over whatever pin results. */
  function LayPolicy(r: Rules, v: View, t: Step, policy: Params, source: Source): View
  {
    if |policy| == 0 then v
    else
      var pin := PinOf(v, t);
      var own := if pin.params.Some? then PinParams(r, pin.params.value) else map[];
      v.(pins := v.pins[t := pin.(params := Some(own + policy))], policySources := v.policySources[t := source])
  }

  function ApplySetting(r: Rules, v: View, env: map<Step, EnvStep>, s: Setting): View
    requires Accepts(r, v.endpoints, s)
  {
    var t, id, model := s.step.value, Trim(s.endpointId), Trim(s.model);
    var base := Registered(v.endpoints, id).value;
    var bound :=
      if Unchanged(v, t, id, model) && !HasPin(r, s) then v
      else Repin(r, Rebind(v, t, base, model), env, s, t);
    LayPolicy(r, bound.(stepSources := bound.stepSources[t := s.source]), t, PolicyParams(r, s.params), s.source)
  }

  // ---- What every overlay keeps --------------------------------------------

  ghost predicate UniqueIds(eps: seq<Endpoint>)
  {
    forall i, j :: 0 <= i < j < |eps| ==> eps[i].id != eps[j].id
  }

  /** Ids are unique, bindings resolve, and every synthesized entry is bound by
      exactly one step. */
  ghost predicate Sound(v: View)
  {
    && UniqueIds(v.endpoints)
    && (forall t :: t in v.binds && v.binds[t] != "" ==> v.binds[t] in Ids(v.endpoints))
    && (forall e :: e in v.endpoints ==> e.id != "" && (e.Synthesized() ==> exists t :: BoundTo(v, t, e.id)))
    && (forall e, t, u :: e in v.endpoints && e.Synthesized() && BoundTo(v, t, e.id) && BoundTo(v, u, e.id) ==> t == u)
  }

  ghost predicate BoundTo(v: View, t: Step, id: string) { t in v.binds && v.binds[t] == id }

  lemma {:induction false} FindIs(eps: seq<Endpoint>, e: Endpoint)
    requires UniqueIds(eps) && e in eps
    ensures Find(eps, e.id) == Some(e)
    ensures Registered(eps, e.id) == if e.Synthesized() then None else Some(e)
  {
    if eps[0] != e {
      assert eps == [eps[0]] + eps[1..];
      assert e in eps[1..];
      FindIs(eps[1..], e);
      var k :| 0 <= k < |eps[1..]| && eps[1..][k] == e;
      assert eps[0].id != eps[k + 1].id;
    } else {
      forall x | x in eps[1..]
        ensures x.id != e.id
      {
        var k :| 0 <= k < |eps[1..]| && eps[1..][k] == x;
        assert eps[0].id != eps[k + 1].id;
      }
    }
  }

  lemma {:induction false} DeleteKeepsUnique(eps: seq<Endpoint>, id: string)
    requires UniqueIds(eps)
    ensures UniqueIds(Delete(eps, id))
  {
    if eps != [] {
      var rest := Delete(eps[1..], id);
      DeleteKeepsUnique(eps[1..], id);
      forall j | 0 <= j < |rest|
        ensures rest[j].id != eps[0].id
      {
        assert rest[j] in eps[1..];
        var k :| 0 <= k < |eps[1..]| && eps[1..][k] == rest[j];
        assert eps[0].id != eps[k + 1].id;
      }
    }
  }

  lemma SameEntry(eps: seq<Endpoint>, e: Endpoint, f: Endpoint)
    requires UniqueIds(eps) && e in eps && f in eps && e.id == f.id
    ensures e == f
  {
    FindIs(eps, e);
    FindIs(eps, f);
  }

  /** The entries after rebinding: the step's own copy is gone, at most one is new. */
  ghost predicate RebindsTo(v: View, v': View, t: Step, base: Endpoint, model: string)
  {
    && UniqueIds(v'.endpoints) && t in v'.binds
    && v'.binds == v.binds[t := if base.model == model then base.id else v'.binds[t]]
    && v'.pins == v.pins && v'.stepSources == v.stepSources && v'.policySources == v.policySources
    && (forall e :: e in v'.endpoints <==> IsKept(v, t, e) || (base.model != model && e == Copy(base, model, v'.binds[t])))
    && (base.model != model ==> v'.binds[t] != "" && forall e :: IsKept(v, t, e) ==> e.id != v'.binds[t])
  }

  ghost predicate IsKept(v: View, t: Step, e: Endpoint)
  {
    e in v.endpoints && !(e.Synthesized() && BoundTo(v, t, e.id))
  }

  function Copy(base: Endpoint, model: string, id: string): Endpoint
  {
    base.(id := id, model := model, baseId := base.id)
  }

  /** Deleting the step's own copy keeps exactly the other entries. */
  lemma KeptEntries(v: View, t: Step)
    requires Sound(v)
    ensures UniqueIds(WithoutOwn(v, t)) && forall e :: e in WithoutOwn(v, t) <==> IsKept(v, t, e)
  {
    var cur := EndpointOf(v, t);
    if cur.Some? { DeleteKeepsUnique(v.endpoints, cur.value.id); }
    forall e | e in v.endpoints && e.Synthesized() && BoundTo(v, t, e.id)
      ensures cur == Some(e)
    {
      FindIs(v.endpoints, e);
    }
    forall e | e in v.endpoints && cur.Some? && e.id == cur.value.id
      ensures e == cur.value
    {
      SameEntry(v.endpoints, e, cur.value);
    }
  }

  lemma RebindIs(v: View, t: Step, base: Endpoint, model: string)
    requires Sound(v) && base in v.endpoints && !base.Synthesized()
    ensures RebindsTo(v, Rebind(v, t, base, model), t, base, model)
  {
    hide Sound, IsKept, FreshIdFrom, Delete, UniqueIds, Ids, EndpointOf;
    KeptEntries(v, t);
    var eps := WithoutOwn(v, t);
    if base.model != model {
      var id := FreshIdFrom(eps, base.id, t, 1);
      AppendFresh(eps, Copy(base, model, id));
      EntriesOf(v, v.(endpoints := eps + [Copy(base, model, id)], binds := v.binds[t := id]), t, base, model);
    } else {
      EntriesOf(v, v.(endpoints := eps, binds := v.binds[t := base.id]), t, base, model);
    }
  }

  lemma EntriesOf(v: View, v': View, t: Step, base: Endpoint, model: string)
    requires v'.pins == v.pins && v'.stepSources == v.stepSources && v'.policySources == v.policySources
    requires UniqueIds(v'.endpoints) && t in v'.binds && v'.binds == v.binds[t := v'.binds[t]]
    requires base.model == model ==> v'.binds[t] == base.id
    requires forall e :: e in v'.endpoints <==> IsKept(v, t, e) || (base.model != model && e == Copy(base, model, v'.binds[t]))
    requires base.model != model ==> v'.binds[t] != "" && forall e :: IsKept(v, t, e) ==> e.id != v'.binds[t]
    ensures RebindsTo(v, v', t, base, model)
  {
  }

  lemma AppendFresh(eps: seq<Endpoint>, e: Endpoint)
    requires UniqueIds(eps) && e.id !in Ids(eps)
    ensures UniqueIds(eps + [e]) && (forall x :: x in eps ==> x.id != e.id)
    ensures forall x :: x in eps + [e] <==> x in eps || x == e
  {
    assert forall x :: x in eps ==> x.id in Ids(eps);
  }

  /** The step finds the endpoint it asked for ... */
  lemma RebindBinds(v: View, v': View, t: Step, base: Endpoint, model: string)
    requires Sound(v) && base in v.endpoints && !base.Synthesized() && RebindsTo(v, v', t, base, model) && base.id != ""
    ensures EndpointOf(v', t) == Some(if base.model == model then base else Copy(base, model, v'.binds[t]))
  {
    var target := if base.model == model then base else Copy(base, model, v'.binds[t]);
    assert IsKept(v, t, base);
    assert target in v'.endpoints;
    FindIs(v'.endpoints, target);
  }

  /** ... and every other step the one it had. */
  lemma RebindLeavesOthers(v: View, v': View, t: Step, base: Endpoint, model: string, u: Step)
    requires Sound(v) && base in v.endpoints && !base.Synthesized() && RebindsTo(v, v', t, base, model) && u != t
    ensures EndpointOf(v', u) == EndpointOf(v, u)
    ensures EndpointOf(v, u).Some? ==> IsKept(v, t, EndpointOf(v, u).value)
  {
    assert u in v'.binds <==> u in v.binds;
    if u in v.binds && v.binds[u] != "" {
      assert v'.binds[u] == v.binds[u] && v.binds[u] in Ids(v.endpoints);
      var e :| e in v.endpoints && e.id == v.binds[u];
      FindIs(v.endpoints, e);
      assert BoundTo(v, u, e.id);
      assert IsKept(v, t, e);
      FindIs(v'.endpoints, e);
    }
  }

  lemma RebindKeepsSound(v: View, v': View, t: Step, base: Endpoint, model: string)
    requires Sound(v) && base in v.endpoints && !base.Synthesized() && RebindsTo(v, v', t, base, model)
    ensures Sound(v')
  {
    BaseHasId(v, base);
    forall u | u in v'.binds && v'.binds[u] != ""
      ensures v'.binds[u] in Ids(v'.endpoints)
    {
      if u == t {
        RebindBinds(v, v', t, base, model);
      } else {
        RebindLeavesOthers(v, v', t, base, model, u);
        BoundIsFound(v, u);
      }
    }
    forall e | e in v'.endpoints
      ensures e.id != "" && (e.Synthesized() ==> exists u :: BoundTo(v', u, e.id))
    {
      if IsKept(v, t, e) {
        if e.Synthesized() {
          var u :| BoundTo(v, u, e.id);
          assert BoundTo(v', u, e.id);
        }
      } else {
        assert BoundTo(v', t, e.id);
      }
    }
    forall e, x, y | e in v'.endpoints && e.Synthesized() && BoundTo(v', x, e.id) && BoundTo(v', y, e.id)
      ensures x == y
    {
      OwnerAfterRebind(v, v', t, base, model, e, x);
      OwnerAfterRebind(v, v', t, base, model, e, y);
    }
  }

  lemma BoundIsFound(v: View, u: Step)
    requires Sound(v) && u in v.binds && v.binds[u] != ""
    ensures EndpointOf(v, u).Some? && EndpointOf(v, u).value.id == v.binds[u]
  {
    assert v.binds[u] in Ids(v.endpoints);
  }

  /** The owner of a synthesized entry: the step for its own copy, and for a kept one
      whoever owned it. */
  lemma OwnerAfterRebind(v: View, v': View, t: Step, base: Endpoint, model: string, e: Endpoint, x: Step)
    requires Sound(v) && base in v.endpoints && !base.Synthesized() && RebindsTo(v, v', t, base, model)
    requires e in v'.endpoints && e.Synthesized() && BoundTo(v', x, e.id)
    ensures if IsKept(v, t, e) then x != t && BoundTo(v, x, e.id) else x == t
  {
    assert x in v.binds && v.binds[x] != "" ==> v.binds[x] in Ids(v.endpoints);
    forall f | f in v.endpoints && f.id == v'.binds[t] && base.model != model
      ensures f.Synthesized() && BoundTo(v, t, f.id)
    {
      assert !IsKept(v, t, f);
    }
    if IsKept(v, t, e) {
      assert base.model == model && x == t ==> e.id == base.id;
      if e.id == base.id { SameEntry(v.endpoints, e, base); }
    } else {
      assert x != t ==> BoundTo(v, x, e.id);
    }
  }

  lemma SameRegistry(eps: seq<Endpoint>, eps': seq<Endpoint>, id: string)
    requires UniqueIds(eps) && UniqueIds(eps')
    requires forall e: Endpoint :: !e.Synthesized() ==> (e in eps <==> e in eps')
    ensures Registered(eps', id) == Registered(eps, id)
  {
    var before, after := Registered(eps, id), Registered(eps', id);
    if before.Some? { FindIs(eps', before.value); }
    if after.Some? { FindIs(eps, after.value); }
  }

  lemma RebindKeepsRegistry(v: View, v': View, t: Step, base: Endpoint, model: string, id: string)
    requires Sound(v) && base in v.endpoints && !base.Synthesized() && RebindsTo(v, v', t, base, model)
    requires base.id != ""
    ensures Registered(v'.endpoints, id) == Registered(v.endpoints, id)
  {
    assert forall e: Endpoint :: !e.Synthesized() ==> (IsKept(v, t, e) <==> e in v.endpoints);
    assert Copy(base, model, v'.binds[t]).Synthesized();
    SameRegistry(v.endpoints, v'.endpoints, id);
  }

  // ---- One setting ---------------------------------------------------------

  /** The endpoint and model a setting asks for. */
  ghost predicate Serves(v: View, e: Endpoint, s: Setting)
  {
    var base := Registered(v.endpoints, Trim(s.endpointId));
    && base.Some? && e.model == Trim(s.model) && e.kind == base.value.kind && e.rest == base.value.rest
    && (if e.model == base.value.model then e == base.value else e.baseId == base.value.id && e.Synthesized())
  }

  ghost predicate SameFor(v: View, v': View, u: Step)
  {
    && EndpointOf(v', u) == EndpointOf(v, u) && PinOf(v', u) == PinOf(v, u)
    && (u in v'.stepSources <==> u in v.stepSources) && (u in v.stepSources ==> v'.stepSources[u] == v.stepSources[u])
    && (u in v'.policySources <==> u in v.policySources) && (u in v.policySources ==> v'.policySources[u] == v.policySources[u])
  }

  /** A synthesized entry differs from the registered entry it copies in its model. */
  ghost predicate CopiesTrue(v: View)
  {
    forall e :: e in v.endpoints && e.Synthesized() ==>
      var base := Registered(v.endpoints, e.baseId);
      base.Some? && e.kind == base.value.kind && e.rest == base.value.rest && e.model != base.value.model
  }

  /** What the rebinding part of a setting does. */
  lemma RebindServes(v: View, s: Setting, t: Step, base: Endpoint)
    requires Sound(v) && CopiesTrue(v) && Registered(v.endpoints, Trim(s.endpointId)) == Some(base)
    ensures var bound := Rebind(v, t, base, Trim(s.model));
            && Sound(bound) && CopiesTrue(bound)
            && (forall id :: Registered(bound.endpoints, id) == Registered(v.endpoints, id))
            && (forall u :: u != t ==> EndpointOf(bound, u) == EndpointOf(v, u))
            && EndpointOf(bound, t).Some? && Serves(v, EndpointOf(bound, t).value, s)
            && bound.pins == v.pins && bound.stepSources == v.stepSources && bound.policySources == v.policySources
  {
    hide Sound, UniqueIds, Rebind;
    var model := Trim(s.model);
    var bound := Rebind(v, t, base, model);
    RebindIs(v, t, base, model);
    RebindKeepsSound(v, bound, t, base, model);
    BaseHasId(v, base);
    forall id
      ensures Registered(bound.endpoints, id) == Registered(v.endpoints, id)
    {
      RebindKeepsRegistry(v, bound, t, base, model, id);
    }
    forall u | u != t
      ensures EndpointOf(bound, u) == EndpointOf(v, u)
    {
      RebindLeavesOthers(v, bound, t, base, model, u);
    }
    RebindBinds(v, bound, t, base, model);
    RegisteredItself(v, base);
  }

  lemma RegisteredItself(v: View, base: Endpoint)
    requires Sound(v) && base in v.endpoints && !base.Synthesized()
    ensures Registered(v.endpoints, base.id) == Some(base)
  {
    FindIs(v.endpoints, base);
  }

  /** Pins and sources are written for the setting's own step only, and never touch
      the bindings. */
  ghost predicate OnlyBooks(v: View, v': View, t: Step)
  {
    && v'.endpoints == v.endpoints && v'.binds == v.binds
    && v'.pins - {t} == v.pins - {t}
    && v'.stepSources - {t} == v.stepSources - {t} && v'.policySources - {t} == v.policySources - {t}
  }

  lemma RepinBooks(r: Rules, v: View, env: map<Step, EnvStep>, s: Setting, t: Step)
    ensures OnlyBooks(v, Repin(r, v, env, s, t), t)
  {
    hide IsEnvBinding, HasPin, Trim, PinParams, IfAny, PinOf;
  }

  lemma LayPolicyBooks(r: Rules, v: View, t: Step, policy: Params, source: Source)
    ensures OnlyBooks(v, LayPolicy(r, v, t, policy, source), t)
    ensures LayPolicy(r, v, t, policy, source).stepSources == v.stepSources
  {
    hide PinParams, PinOf, OnlyBooks;
    if |policy| == 0 {
      PinBooks(v, t, v.pins, v.policySources);
    } else {
      var v' := LayPolicy(r, v, t, policy, source);
      WithoutUpdated(v.pins, t, v'.pins[t]);
      WithoutUpdated(v.policySources, t, source);
      PinBooks(v, t, v'.pins, v'.policySources);
    }
  }

  lemma WithoutUpdated<T>(m: map<Step, T>, t: Step, x: T)
    ensures m[t := x] - {t} == m - {t}
  {
  }

  lemma PinBooks(v: View, t: Step, pins: map<Step, Pin>, policySources: map<Step, Source>)
    requires pins - {t} == v.pins - {t} && policySources - {t} == v.policySources - {t}
    ensures OnlyBooks(v, v.(pins := pins, policySources := policySources), t)
  {
  }

  lemma SourceBooks(v: View, t: Step, source: Source)
    ensures OnlyBooks(v, v.(stepSources := v.stepSources[t := source]), t)
  {
  }

  lemma BooksOfSetting(r: Rules, v: View, env: map<Step, EnvStep>, s: Setting, t: Step, bound: View, repins: bool)
    requires !repins ==> bound == v
    ensures var pinned := if repins then Repin(r, bound, env, s, t) else v;
            var v' := LayPolicy(r, pinned.(stepSources := pinned.stepSources[t := s.source]), t, PolicyParams(r, s.params), s.source);
            OnlyBooks(bound, v', t) && t in v'.stepSources && v'.stepSources[t] == s.source
  {
    hide Repin, LayPolicy, PolicyParams;
    if repins { RepinBooks(r, bound, env, s, t); }
    var pinned := if repins then Repin(r, bound, env, s, t) else v;
    SourceBooks(pinned, t, s.source);
    LayPolicyBooks(r, pinned.(stepSources := pinned.stepSources[t := s.source]), t, PolicyParams(r, s.params), s.source);
  }

  lemma BooksLeaveOthers(v: View, bound: View, v': View, t: Step, u: Step)
    requires OnlyBooks(bound, v', t) && u != t && EndpointOf(bound, u) == EndpointOf(v, u)
    requires bound.pins == v.pins && bound.stepSources == v.stepSources && bound.policySources == v.policySources
    ensures SameFor(v, v', u)
  {
    assert u in v'.pins <==> u in (v'.pins - {t});
    assert u in v.pins <==> u in (v.pins - {t});
    assert u in v'.stepSources <==> u in (v'.stepSources - {t});
    assert u in v.stepSources <==> u in (v.stepSources - {t});
    assert u in v'.policySources <==> u in (v'.policySources - {t});
    assert u in v.policySources <==> u in (v.policySources - {t});
    assert u in v.pins ==> (v'.pins - {t})[u] == (v.pins - {t})[u];
    assert u in v.stepSources ==> (v'.stepSources - {t})[u] == (v.stepSources - {t})[u];
    assert u in v.policySources ==> (v'.policySources - {t})[u] == (v.policySources - {t})[u];
  }

  /** One accepted setting: the overlay stays sound, the registry and every other step
      are as before, and the step runs exactly the endpoint and model asked for. */
  lemma SettingApplies(r: Rules, v: View, env: map<Step, EnvStep>, s: Setting)
    requires Sound(v) && CopiesTrue(v) && Accepts(r, v.endpoints, s)
    ensures var t, v' := s.step.value, ApplySetting(r, v, env, s);
            && Sound(v') && CopiesTrue(v')
            && (forall id :: Registered(v'.endpoints, id) == Registered(v.endpoints, id))
            && (forall u :: u != t ==> SameFor(v, v', u))
            && EndpointOf(v', t).Some? && Serves(v, EndpointOf(v', t).value, s)
            && t in v'.stepSources && v'.stepSources[t] == s.source
  {
    hide Sound, UniqueIds, Rebind, Repin, LayPolicy, HasPin, PolicyParams, Serves, SameFor;
    var t, id, model := s.step.value, Trim(s.endpointId), Trim(s.model);
    var base := Registered(v.endpoints, id).value;
    var v' := ApplySetting(r, v, env, s);
    var repins := !(Unchanged(v, t, id, model) && !HasPin(r, s));
    var bound := if repins then Rebind(v, t, base, model) else v;
    if repins { RebindServes(v, s, t, base); } else { UnchangedServes(v, t, s); }
    BooksOfSetting(r, v, env, s, t, bound, repins);
    SoundDependsOnBindings(bound, v');
    forall u | u != t
      ensures SameFor(v, v', u)
    {
      BooksLeaveOthers(v, bound, v', t, u);
    }
    assert EndpointOf(v', t) == EndpointOf(bound, t);
    assert CopiesTrue(v');
  }

  lemma BaseHasId(v: View, base: Endpoint)
    requires Sound(v) && base in v.endpoints
    ensures base.id != ""
  {
  }

  lemma SoundDependsOnBindings(v: View, v': View)
    requires Sound(v) && v'.endpoints == v.endpoints && v'.binds == v.binds
    ensures Sound(v')
  {
    assert forall t, id :: BoundTo(v', t, id) <==> BoundTo(v, t, id);
  }

  lemma UnchangedServes(v: View, t: Step, s: Setting)
    requires Sound(v) && CopiesTrue(v) && Unchanged(v, t, Trim(s.endpointId), Trim(s.model)) && Trim(s.endpointId) != ""
    requires Registered(v.endpoints, Trim(s.endpointId)).Some?
    ensures Serves(v, EndpointOf(v, t).value, s)
  {
    var e, base := EndpointOf(v, t).value, Registered(v.endpoints, Trim(s.endpointId)).value;
    if e.id == base.id { SameEntry(v.endpoints, e, base); }
  }

  // ---- A list of settings --------------------------------------------------

  /** Settings in order; the first refused one fails the whole list. */
  function ApplyAll(r: Rules, v: View, env: map<Step, EnvStep>, settings: seq<Setting>): Option<View>
    decreases |settings|
  {
    if settings == [] then Some(v)
    else if !Accepts(r, v.endpoints, settings[0]) then None
    else ApplyAll(r, ApplySetting(r, v, env, settings[0]), env, settings[1..])
  }

  /** The setting that fails a list, and why. */
  datatype Refusal = Refusal(setting: Setting, problem: Problem)

  function FirstRefusal(r: Rules, v: View, env: map<Step, EnvStep>, settings: seq<Setting>): Option<Refusal>
    decreases |settings|
  {
    if settings == [] then None
    else
      CheckDecides(r, v.endpoints, settings[0]);
      var problem := Check(r, v.endpoints, settings[0]);
      if problem.Some? then Some(Refusal(settings[0], problem.value))
      else FirstRefusal(r, ApplySetting(r, v, env, settings[0]), env, settings[1..])
  }

  lemma {:induction false} RefusalFailsList(r: Rules, v: View, env: map<Step, EnvStep>, settings: seq<Setting>)
    ensures FirstRefusal(r, v, env, settings).Some? <==> ApplyAll(r, v, env, settings).None?
    decreases |settings|
  {
    hide Check, Accepts, ApplySetting;
    if settings != [] {
      CheckDecides(r, v.endpoints, settings[0]);
      if Accepts(r, v.endpoints, settings[0]) {
        RefusalFailsList(r, ApplySetting(r, v, env, settings[0]), env, settings[1..]);
      }
    }
  }

  ghost predicate Names(settings: seq<Setting>, t: Step) { exists s :: s in settings && s.step == Some(t) }

  /** No later setting names the same step. */
  ghost predicate IsLast(settings: seq<Setting>, k: int)
  {
    0 <= k < |settings| && forall j :: k < j < |settings| ==> settings[j].step != settings[k].step
  }

  ghost predicate SameEntries(v: View, v': View)
  {
    forall id :: Registered(v'.endpoints, id) == Registered(v.endpoints, id)
  }

  /** The step runs what the setting asked for, and says so. */
  ghost predicate Runs(v: View, v': View, s: Setting)
  {
    && s.step.Some?
    && var t := s.step.value;
    EndpointOf(v', t).Some? && Serves(v, EndpointOf(v', t).value, s)
    && t in v'.stepSources && v'.stepSources[t] == s.source
  }

  lemma SameRegistryAccepts(r: Rules, v: View, v': View, s: Setting)
    requires SameEntries(v, v')
    ensures Accepts(r, v'.endpoints, s) == Accepts(r, v.endpoints, s)
    ensures Check(r, v'.endpoints, s) == Check(r, v.endpoints, s)
  {
    assert Registered(v'.endpoints, Trim(s.endpointId)) == Registered(v.endpoints, Trim(s.endpointId));
  }

  lemma SameForTrans(v: View, m: View, v': View, u: Step)
    requires SameFor(v, m, u) && SameFor(m, v', u)
    ensures SameFor(v, v', u)
  {
  }

  lemma RunsCarries(v: View, m: View, v': View, s: Setting)
    requires SameEntries(v, m)
    ensures Runs(m, v', s) <==> Runs(v, v', s)
    ensures Runs(v, m, s) && s.step.Some? && SameFor(m, v', s.step.value) ==> Runs(v, v', s)
  {
    assert Registered(m.endpoints, Trim(s.endpointId)) == Registered(v.endpoints, Trim(s.endpointId));
  }

  /** What a list of settings comes to: a step no setting names is as it was, a named
      one runs the endpoint and model of its last setting, and the registry is whole. */
  ghost predicate Layered(v: View, v': View, settings: seq<Setting>)
  {
    && SameEntries(v, v')
    && (forall u :: !Names(settings, u) ==> SameFor(v, v', u))
    && (forall k :: IsLast(settings, k) ==> Runs(v, v', settings[k]))
  }

  /** Any list of settings is refused exactly when the base registry refuses one of
      them; otherwise every step follows its last setting. */
  lemma {:induction false} LastSettingWins(r: Rules, v: View, env: map<Step, EnvStep>, settings: seq<Setting>)
    requires Sound(v) && CopiesTrue(v)
    ensures ApplyAll(r, v, env, settings).Some? <==> forall s :: s in settings ==> Accepts(r, v.endpoints, s)
    ensures var out := ApplyAll(r, v, env, settings);
            out.Some? ==> Sound(out.value) && CopiesTrue(out.value) && Layered(v, out.value, settings)
    decreases |settings|
  {
    hide Sound, CopiesTrue, Accepts, ApplySetting, SameFor, Runs, SameEntries, Layered;
    if settings == [] {
      NothingApplied(v);
    } else {
      var s, rest := settings[0], settings[1..];
      assert settings == [s] + rest;
      if Accepts(r, v.endpoints, s) {
        var m := ApplySetting(r, v, env, s);
        OneApplied(r, v, env, s);
        LastSettingWins(r, m, env, rest);
        forall x | x in rest
          ensures Accepts(r, m.endpoints, x) == Accepts(r, v.endpoints, x)
        {
          SameRegistryAccepts(r, v, m, x);
        }
        var out := ApplyAll(r, v, env, settings);
        if out.Some? { LastOfList(v, m, out.value, settings); }
      }
    }
  }

  /** The refusal reported is that of the first setting the base registry refuses. */
  lemma {:induction false} FirstRefusalIsFirst(r: Rules, v: View, env: map<Step, EnvStep>, settings: seq<Setting>) returns (k: nat)
    requires Sound(v) && CopiesTrue(v) && FirstRefusal(r, v, env, settings).Some?
    ensures k < |settings| && FirstRefusal(r, v, env, settings).value.setting == settings[k]
    ensures Check(r, v.endpoints, settings[k]) == Some(FirstRefusal(r, v, env, settings).value.problem)
    ensures forall j :: 0 <= j < k ==> Check(r, v.endpoints, settings[j]).None?
    decreases |settings|
  {
    hide Sound, CopiesTrue, Accepts, Check, ApplySetting, SameFor, Runs, SameEntries;
    if Check(r, v.endpoints, settings[0]).Some? { return 0; }
    CheckDecides(r, v.endpoints, settings[0]);
    var m, rest := ApplySetting(r, v, env, settings[0]), settings[1..];
    OneApplied(r, v, env, settings[0]);
    k := FirstRefusalIsFirst(r, m, env, rest);
    forall x
      ensures Check(r, m.endpoints, x) == Check(r, v.endpoints, x)
    {
      SameRegistryAccepts(r, v, m, x);
    }
    assert forall j :: 0 < j < |settings| ==> settings[j] == rest[j - 1];
    k := k + 1;
  }

  lemma NothingApplied(v: View)
    ensures Layered(v, v, [])
  {
  }

  lemma OneApplied(r: Rules, v: View, env: map<Step, EnvStep>, s: Setting)
    requires Sound(v) && CopiesTrue(v) && Accepts(r, v.endpoints, s)
    ensures var m := ApplySetting(r, v, env, s);
            && Sound(m) && CopiesTrue(m) && SameEntries(v, m)
            && (forall u :: s.step != Some(u) ==> SameFor(v, m, u)) && Runs(v, m, s)
  {
    hide Sound, CopiesTrue, ApplySetting, SameFor, Serves;
    SettingApplies(r, v, env, s);
  }

  lemma SameEntriesTrans(v: View, m: View, v': View)
    requires SameEntries(v, m) && SameEntries(m, v')
    ensures SameEntries(v, v')
  {
  }

  /** The list's promise from that of its first setting and that of the rest. */
  lemma LastOfList(v: View, m: View, v': View, settings: seq<Setting>)
    requires settings != [] && SameEntries(v, m)
    requires forall u :: settings[0].step != Some(u) ==> SameFor(v, m, u)
    requires Runs(v, m, settings[0])
    requires Layered(m, v', settings[1..])
    ensures Layered(v, v', settings)
  {
    hide SameFor, Runs, SameEntries;
    var s, rest := settings[0], settings[1..];
    assert settings == [s] + rest;
    SameEntriesTrans(v, m, v');
    forall u | !Names(settings, u)
      ensures SameFor(v, v', u)
    {
      assert s in settings && s.step != Some(u);
      assert forall x :: x in rest ==> x in settings;
      SameForTrans(v, m, v', u);
    }
    RunsHasStep(v, m, s);
    forall k | IsLast(settings, k)
      ensures Runs(v, v', settings[k])
    {
      if k == 0 { LastIsFirst(v, m, v', settings); } else { LastIsLater(v, m, v', settings, k); }
    }
  }

  lemma LastIsFirst(v: View, m: View, v': View, settings: seq<Setting>)
    requires IsLast(settings, 0) && settings[0].step.Some? && Runs(v, m, settings[0])
    requires SameEntries(v, m) && Layered(m, v', settings[1..])
    ensures Runs(v, v', settings[0])
  {
    hide SameFor, Runs, SameEntries;
    var rest := settings[1..];
    forall x | x in rest
      ensures x.step != settings[0].step
    {
      var j :| 0 <= j < |rest| && rest[j] == x;
      assert settings[j + 1] == x;
    }
    RunsCarries(v, m, v', settings[0]);
  }

  lemma LastIsLater(v: View, m: View, v': View, settings: seq<Setting>, k: int)
    requires k > 0 && IsLast(settings, k) && SameEntries(v, m) && Layered(m, v', settings[1..])
    ensures Runs(v, v', settings[k])
  {
    hide SameFor, Runs, SameEntries;
    var rest := settings[1..];
    assert forall j :: k - 1 < j < |rest| ==> rest[j] == settings[j + 1];
    assert IsLast(rest, k - 1) && rest[k - 1] == settings[k];
    RunsCarries(v, m, v', settings[k]);
  }

  lemma RunsHasStep(v: View, m: View, s: Setting)
    requires Runs(v, m, s)
    ensures s.step.Some?
  {
  }

  /** A synthesized entry has one step, so a step has at most one. */
  lemma OneSynthesizedPerStep(v: View, e: Endpoint, f: Endpoint, t: Step)
    requires Sound(v) && e in v.endpoints && f in v.endpoints && e.Synthesized() && f.Synthesized()
    requires BoundTo(v, t, e.id) && BoundTo(v, t, f.id)
    ensures e == f && forall u :: BoundTo(v, u, e.id) ==> u == t
  {
    SameEntry(v.endpoints, e, f);
  }

  // ---- Back to the environment ---------------------------------------------

  /** What the configuration loaded from the environment binds each step to. */
  function Snapshot(v: View): map<Step, EnvStep>
  {
    map t | t in {Propose, Decide, Scan, Embed} :: EnvStepOf(v, t)
  }

  function EnvStepOf(v: View, t: Step): EnvStep
  {
    var ep := EndpointOf(v, t);
    if ep.Some? then EnvStep(ep.value.id, ep.value.model, PinOf(v, t)) else EnvStep("", "", PinOf(v, t))
  }

  /** A setting that carries no pin and no policy. */
  predicate Plain(r: Rules, s: Setting) { !HasPin(r, s) && |PolicyParams(r, s.params)| == 0 }

  /** The pin after a plain setting: kept, the environment's, or none but the prompt's. */
  lemma PinAfterPlain(r: Rules, v: View, env: map<Step, EnvStep>, s: Setting)
    requires Accepts(r, v.endpoints, s) && Plain(r, s)
    ensures var t, id, model := s.step.value, Trim(s.endpointId), Trim(s.model);
            PinOf(ApplySetting(r, v, env, s), t) ==
            if Unchanged(v, t, id, model) then PinOf(v, t)
            else if IsEnvBinding(env, t, id, model) then env[t].pin
            else Pin("", Trim(s.expected), Trim(s.revision), PinOf(v, t).promptVersion, IfAny(PinParams(r, s.params)))
  {
    hide Accepts, Unchanged, IsEnvBinding, HasPin, Trim, PinParams, PolicyParams, IfAny, FreshIdFrom, WithoutOwn;
  }

  /** A plain setting naming the environment's binding brings back its pin exactly when
      the step was bound elsewhere, or still had that pin: a pin a lower layer put on
      the same endpoint and model stays. */
  lemma EnvPinComesBack(r: Rules, v: View, env: map<Step, EnvStep>, s: Setting)
    requires Accepts(r, v.endpoints, s) && Plain(r, s)
    requires IsEnvBinding(env, s.step.value, Trim(s.endpointId), Trim(s.model))
    ensures var t := s.step.value;
            PinOf(ApplySetting(r, v, env, s), t) == env[t].pin <==>
            !Unchanged(v, t, Trim(s.endpointId), Trim(s.model)) || PinOf(v, t) == env[t].pin
  {
    hide Accepts, Unchanged, Plain, ApplySetting, Trim;
    PinAfterPlain(r, v, env, s);
  }

  /** A layer whose pin stays: it pins the environment's own endpoint and model, and the
      plain setting that names them again finds the step unchanged. */
  lemma LayerKeepsItsPin() returns (r: Rules, v0: View, layer: Setting, s: Setting)
    ensures FromEnvironment(v0) && ApplyAll(r, v0, Snapshot(v0), [layer]).Some?
    ensures var v := ApplyAll(r, v0, Snapshot(v0), [layer]).value;
            && Accepts(r, v.endpoints, s) && Plain(r, s) && s.step == Some(Propose)
            && IsEnvBinding(Snapshot(v0), Propose, Trim(s.endpointId), Trim(s.model))
            && PinOf(ApplySetting(r, v, Snapshot(v0), s), Propose) != PinOf(v0, Propose)
  {
    r := Rules(m => true, (e, m) => true, (t, p) => true, k => false);
    var ep := Endpoint("a", Chat, "m", "", "");
    v0 := View([ep], map[Propose := "a"], map[], map[], map[]);
    layer := Setting(Some(Propose), "a", "m", "", "r1", map[], FromDb);
    s := layer.(revision := "");
    assert Trim("a") == "a" && Trim("m") == "m" && Trim("") == "" && Trim("r1") == "r1";
    assert Find(v0.endpoints, "a") == Some(ep) && Registered(v0.endpoints, "a") == Some(ep);
    assert EndpointOf(v0, Propose) == Some(ep);
    assert BoundTo(v0, Propose, "a") && ep in v0.endpoints && "a" in Ids(v0.endpoints);
    assert PinParams(r, map[]) == map[] && PolicyParams(r, map[]) == map[];
    var v := ApplySetting(r, v0, Snapshot(v0), layer);
    assert WithoutOwn(v0, Propose) == v0.endpoints && v.endpoints == v0.endpoints && v.binds[Propose] == "a";
    assert PinOf(v, Propose).revision == "r1";
    assert ApplyAll(r, v, Snapshot(v0), [layer][1..]) == Some(v);
    assert EndpointOf(v, Propose) == Some(ep) && Unchanged(v, Propose, "a", "m");
  }

  /** Policy keys replace the pin's policy keys and keep the rest of the pin. */
  lemma PolicyReplacesPolicyOnly(r: Rules, v: View, t: Step, policy: Params, source: Source)
    requires |policy| > 0 && forall k :: k in policy ==> r.isPolicy(k)
    ensures var was, now := PinOf(v, t), PinOf(LayPolicy(r, v, t, policy, source), t);
            && now.params.Some? && PolicyParams(r, now.params.value) == policy
            && PinParams(r, now.params.value) == PinParams(r, was.params.GetOr(map[]))
            && now == was.(params := now.params)
  {
    hide PinParams, PolicyParams;
    var was := PinOf(v, t).params.GetOr(map[]);
    PinParamsOfNone(r);
    PolicyOverPins(r, was, policy);
  }

  lemma PinParamsOfNone(r: Rules)
    ensures PinParams(r, map[]) == map[]
  {
  }

  lemma PolicyOverPins(r: Rules, was: Params, policy: Params)
    requires forall k :: k in policy ==> r.isPolicy(k)
    ensures PolicyParams(r, PinParams(r, was) + policy) == policy
    ensures PinParams(r, PinParams(r, was) + policy) == PinParams(r, was)
  {
    var own := PinParams(r, was);
    var now := own + policy;
    assert forall k :: k in now && r.isPolicy(k) <==> k in policy;
    assert forall k :: k in now && !r.isPolicy(k) <==> k in own;
    assert forall k :: k in own ==> now[k] == own[k];
  }

  // ---- Which pin a setting leaves ------------------------------------------

  function ParamsOf(pin: Pin): Params { pin.params.GetOr(map[]) }

  ghost predicate SameKey(p: Params, q: Params, k: string)
  {
    (k in p <==> k in q) && (k in p && k in q ==> p[k] == q[k])
  }

  /** The setting says which model is to answer: an expected model, a revision, or a
      parameter that is no policy key. */
  ghost predicate CarriesPin(r: Rules, s: Setting)
  {
    s.expected != "" || s.revision != "" || exists k :: k in s.params && !r.isPolicy(k)
  }

  ghost predicate CarriesPolicy(r: Rules, s: Setting) { exists k :: k in s.params && r.isPolicy(k) }

  /** The pin is the setting's own, as far as the model goes. */
  ghost predicate PinnedBy(r: Rules, s: Setting, pin: Pin)
  {
    && pin.aliasName == "" && pin.expected == Trim(s.expected) && pin.revision == Trim(s.revision)
    && forall k :: !r.isPolicy(k) ==> SameKey(ParamsOf(pin), s.params, k)
  }

  /** The same pin, as far as the model and the prompt go. */
  ghost predicate SamePin(r: Rules, was: Pin, pin: Pin)
  {
    && pin.aliasName == was.aliasName && pin.expected == was.expected && pin.revision == was.revision
    && pin.promptVersion == was.promptVersion
    && forall k :: !r.isPolicy(k) ==> SameKey(ParamsOf(pin), ParamsOf(was), k)
  }

  ghost predicate SamePolicy(r: Rules, p: Params, q: Params) { forall k :: r.isPolicy(k) ==> SameKey(p, q, k) }

  lemma CarriesIs(r: Rules, s: Setting)
    ensures HasPin(r, s) <==> CarriesPin(r, s)
    ensures |PolicyParams(r, s.params)| > 0 <==> CarriesPolicy(r, s)
  {
    var pins, policy := PinParams(r, s.params), PolicyParams(r, s.params);
    if k :| k in s.params && !r.isPolicy(k) { assert k in pins; }
    if k :| k in s.params && r.isPolicy(k) { assert k in policy; }
    if |pins| > 0 { var k :| k in pins; }
    if |policy| > 0 { var k :| k in policy; }
  }

  /** What a setting makes of a pin it finds or brings back. */
  ghost predicate LaidOver(r: Rules, s: Setting, from: Pin, pin: Pin)
  {
    && SamePin(r, from, pin)
    && SamePolicy(r, ParamsOf(pin), if CarriesPolicy(r, s) then s.params else ParamsOf(from))
  }

  lemma PolicyIsLaidOver(r: Rules, v: View, t: Step, s: Setting, source: Source)
    ensures LaidOver(r, s, PinOf(v, t), PinOf(LayPolicy(r, v, t, PolicyParams(r, s.params), source), t))
  {
    hide PinParams, PolicyParams, SameKey, CarriesPolicy, HasPin, CarriesPin;
    CarriesIs(r, s);
    PinParamsOfNone(r);
    KeysLaidOver(r, ParamsOf(PinOf(v, t)), s.params);
    forall p: Params, k
      ensures SameKey(p, p, k)
    {
      SameKeyItself(p, k);
    }
  }

  lemma SameKeyItself(p: Params, k: string)
    ensures SameKey(p, p, k)
  {
  }

  lemma KeysLaidOver(r: Rules, was: Params, given: Params)
    ensures var now := PinParams(r, was) + PolicyParams(r, given);
            SamePolicy(r, now, given) && forall k :: !r.isPolicy(k) ==> SameKey(now, was, k)
  {
  }

  lemma LaidOverNew(r: Rules, s: Setting, prompt: string, pin: Pin)
    requires LaidOver(r, s, Pin("", Trim(s.expected), Trim(s.revision), prompt, IfAny(PinParams(r, s.params))), pin)
    ensures PinnedBy(r, s, pin) && pin.promptVersion == prompt && SamePolicy(r, ParamsOf(pin), s.params)
  {
    hide Trim;
    var own := PinParams(r, s.params);
    assert ParamsOf(Pin("", "", "", "", IfAny(own))) == own;
  }

  /** The pin an accepted setting leaves its step with. One that carries a pin, or moves the
      step anywhere but to its environment's binding, leaves its own, with the prompt version
      there was. Any other keeps the pin there was where the step already runs what is asked
      for, and brings back the environment's otherwise. The policy keys are those the setting
      carries or, when it carries none, those of that pin. */
  lemma PinOfSetting(r: Rules, v: View, env: map<Step, EnvStep>, s: Setting)
    requires Accepts(r, v.endpoints, s)
    ensures var t, id, model := s.step.value, Trim(s.endpointId), Trim(s.model);
            var was, now, cur := PinOf(v, t), PinOf(ApplySetting(r, v, env, s), t), EndpointOf(v, t);
            var running := cur.Some? && cur.value.model == model && id in {cur.value.id, cur.value.baseId};
            var environment := t in env && env[t].endpoint == id && env[t].model == model;
            && (CarriesPin(r, s) || !(running || environment) ==>
                  PinnedBy(r, s, now) && now.promptVersion == was.promptVersion && SamePolicy(r, ParamsOf(now), s.params))
            && (!CarriesPin(r, s) && running ==> LaidOver(r, s, was, now))
            && (!CarriesPin(r, s) && !running && environment ==> LaidOver(r, s, env[t].pin, now))
  {
    hide Trim, Rebind, LayPolicy, PinParams, PolicyParams, IfAny, LaidOver, HasPin, CarriesPin, SamePolicy, PinnedBy;
    var t, id, model := s.step.value, Trim(s.endpointId), Trim(s.model);
    var base := Registered(v.endpoints, id).value;
    CarriesIs(r, s);
    var bound := if Unchanged(v, t, id, model) && !HasPin(r, s) then v else Repin(r, Rebind(v, t, base, model), env, s, t);
    PolicyIsLaidOver(r, bound.(stepSources := bound.stepSources[t := s.source]), t, s, s.source);
    RebindKeepsPins(v, t, base, model);
    if HasPin(r, s) || !(Unchanged(v, t, id, model) || IsEnvBinding(env, t, id, model)) {
      LaidOverNew(r, s, PinOf(v, t).promptVersion, PinOf(ApplySetting(r, v, env, s), t));
    }
  }

  /** Who is said to have set the policy: the setting, when it carries any or leaves a pin of
      its own; the environment, when only its pin comes back; otherwise whoever did before. */
  lemma PolicySourceOfSetting(r: Rules, v: View, env: map<Step, EnvStep>, s: Setting)
    requires Accepts(r, v.endpoints, s)
    ensures var t, id, model := s.step.value, Trim(s.endpointId), Trim(s.model);
            var was, now, cur := v.policySources, ApplySetting(r, v, env, s).policySources, EndpointOf(v, t);
            var running := cur.Some? && cur.value.model == model && id in {cur.value.id, cur.value.baseId};
            var environment := t in env && env[t].endpoint == id && env[t].model == model;
            && (CarriesPolicy(r, s) || CarriesPin(r, s) || !(running || environment) ==> t in now && now[t] == s.source)
            && (!CarriesPolicy(r, s) && !CarriesPin(r, s) && running ==> now == was)
            && (!CarriesPolicy(r, s) && !CarriesPin(r, s) && !running && environment ==> t in now && now[t] == FromEnv)
  {
    hide Trim, WithoutOwn, FreshIdFrom, PinParams, PolicyParams, IfAny, HasPin, CarriesPin, CarriesPolicy, PinOf;
    CarriesIs(r, s);
  }

  lemma RebindKeepsPins(v: View, t: Step, base: Endpoint, model: string)
    ensures Rebind(v, t, base, model).pins == v.pins
  {
  }

  /** Of a list of settings, the last one for a step pins it, if it carries a pin. */
  lemma {:induction false} LastPinStays(r: Rules, v: View, env: map<Step, EnvStep>, settings: seq<Setting>, k: nat)
    requires Sound(v) && CopiesTrue(v) && ApplyAll(r, v, env, settings).Some?
    requires IsLast(settings, k) && settings[k].step.Some? && CarriesPin(r, settings[k])
    ensures PinnedBy(r, settings[k], PinOf(ApplyAll(r, v, env, settings).value, settings[k].step.value))
    decreases |settings|
  {
    hide Sound, CopiesTrue, Accepts, ApplySetting, CarriesPin, PinnedBy, Runs, SameEntries;
    var s, rest := settings[0], settings[1..];
    var m := ApplySetting(r, v, env, s);
    OneApplied(r, v, env, s);
    if k == 0 {
      PinOfSetting(r, v, env, s);
      LastSettingWins(r, m, env, rest);
      forall x | x in rest
        ensures x.step != s.step
      {
        var j :| 0 <= j < |rest| && rest[j] == x;
        assert settings[j + 1] == x;
      }
      assert !Names(rest, s.step.value);
    } else {
      assert forall j :: k - 1 < j < |rest| ==> rest[j] == settings[j + 1];
      assert rest[k - 1] == settings[k];
      LastPinStays(r, m, env, rest, k - 1);
    }
  }

  /** The step is on its environment endpoint only with its environment pin. */
  ghost predicate EnvPinned(v0: View, v: View, t: Step)
  {
    EndpointOf(v, t) == EndpointOf(v0, t) ==> PinOf(v, t) == PinOf(v0, t)
  }

  ghost predicate FromEnvironment(v0: View)
  {
    Sound(v0) && forall e :: e in v0.endpoints ==> !e.Synthesized()
  }

  /** Asking for the step's own environment binding reaches its environment endpoint,
      and nothing else does. */
  lemma ServesEnvironment(v0: View, t: Step, e: Endpoint, s: Setting)
    requires FromEnvironment(v0) && EndpointOf(v0, t).Some? && Serves(v0, e, s) && Trim(s.endpointId) != ""
    ensures IsEnvBinding(Snapshot(v0), t, Trim(s.endpointId), Trim(s.model)) <==> e == EndpointOf(v0, t).value
  {
    hide UniqueIds, Trim;
    var own := EndpointOf(v0, t).value;
    FindIs(v0.endpoints, own);
    var base := Registered(v0.endpoints, Trim(s.endpointId)).value;
    FindIs(v0.endpoints, base);
  }

  lemma UnchangedKeepsEndpoint(r: Rules, v: View, env: map<Step, EnvStep>, s: Setting)
    requires Accepts(r, v.endpoints, s) && Plain(r, s) && Unchanged(v, s.step.value, Trim(s.endpointId), Trim(s.model))
    ensures EndpointOf(ApplySetting(r, v, env, s), s.step.value) == EndpointOf(v, s.step.value)
  {
  }

  lemma PlainKeepsEnvPinned(r: Rules, v0: View, v: View, s: Setting, t: Step)
    requires FromEnvironment(v0) && Sound(v) && CopiesTrue(v) && SameEntries(v0, v) && EndpointOf(v0, t).Some?
    requires Accepts(r, v.endpoints, s) && (s.step == Some(t) ==> Plain(r, s)) && EnvPinned(v0, v, t)
    ensures EnvPinned(v0, ApplySetting(r, v, Snapshot(v0), s), t)
  {
    hide Sound, CopiesTrue, SameEntries, ApplySetting, Serves, Trim, Plain, Unchanged, IsEnvBinding;
    var env := Snapshot(v0);
    var v' := ApplySetting(r, v, env, s);
    OneApplied(r, v, env, s);
    if s.step == Some(t) {
      PinAfterPlain(r, v, env, s);
      if Unchanged(v, t, Trim(s.endpointId), Trim(s.model)) {
        UnchangedKeepsEndpoint(r, v, env, s);
      } else {
        RunsCarries(v0, v, v', s);
        ServesEnvironment(v0, t, EndpointOf(v', t).value, s);
      }
    }
  }

  lemma {:induction false} PlainListKeepsEnvPinned(r: Rules, v0: View, v: View, settings: seq<Setting>, t: Step)
    requires FromEnvironment(v0) && Sound(v) && CopiesTrue(v) && SameEntries(v0, v) && EndpointOf(v0, t).Some?
    requires EnvPinned(v0, v, t) && forall s :: s in settings && s.step == Some(t) ==> Plain(r, s)
    ensures var out := ApplyAll(r, v, Snapshot(v0), settings); out.Some? ==> EnvPinned(v0, out.value, t)
    decreases |settings|
  {
    hide FromEnvironment, Sound, CopiesTrue, SameEntries, ApplySetting, Plain, Accepts, EnvPinned, Snapshot, Runs, SameFor;
    if settings != [] && Accepts(r, v.endpoints, settings[0]) {
      var m := ApplySetting(r, v, Snapshot(v0), settings[0]);
      assert settings[0] in settings;
      OneApplied(r, v, Snapshot(v0), settings[0]);
      PlainKeepsEnvPinned(r, v0, v, settings[0], t);
      SameEntriesTrans(v0, v, m);
      assert forall s :: s in settings[1..] ==> s in settings;
      PlainListKeepsEnvPinned(r, v0, m, settings[1..], t);
    }
  }

  /** Undoing: after any settings at all for the other steps and any plain ones for this
      step, a plain setting naming the environment's binding gives the step back the
      environment's endpoint, model and pin. */
  lemma EnvironmentComesBack(r: Rules, v0: View, settings: seq<Setting>, s: Setting, t: Step)
    requires FromEnvironment(v0) && Accepts(r, v0.endpoints, s) && s.step == Some(t) && Plain(r, s)
    requires IsEnvBinding(Snapshot(v0), t, Trim(s.endpointId), Trim(s.model))
    requires forall x :: x in settings && x.step == Some(t) ==> Plain(r, x)
    requires ApplyAll(r, v0, Snapshot(v0), settings).Some?
    ensures var v := ApplyAll(r, v0, Snapshot(v0), settings).value;
            && Accepts(r, v.endpoints, s)
            && var v' := ApplySetting(r, v, Snapshot(v0), s);
            EndpointOf(v', t) == EndpointOf(v0, t) && PinOf(v', t) == PinOf(v0, t)
  {
    hide Sound, CopiesTrue, SameEntries, ApplySetting, ApplyAll, Serves, Trim, Plain, Unchanged, Accepts;
    var env := Snapshot(v0);
    NoCopiesAreTrue(v0);
    LastSettingWins(r, v0, env, settings);
    var v := ApplyAll(r, v0, env, settings).value;
    SameRegistryAccepts(r, v0, v, s);
    PlainListKeepsEnvPinned(r, v0, v0, settings, t);
    PlainKeepsEnvPinned(r, v0, v, s, t);
    var v' := ApplySetting(r, v, env, s);
    OneApplied(r, v, env, s);
    RunsCarries(v0, v, v', s);
    AcceptedNames(r, v, s);
    ServesEnvironment(v0, t, EndpointOf(v', t).value, s);
  }

  lemma AcceptedNames(r: Rules, v: View, s: Setting)
    requires Accepts(r, v.endpoints, s)
    ensures Trim(s.endpointId) != ""
  {
  }

  lemma NoCopiesAreTrue(v0: View)
    requires FromEnvironment(v0)
    ensures CopiesTrue(v0) && SameEntries(v0, v0)
  {
  }

  // ---- Valid settings only -------------------------------------------------

  /** Refused settings are skipped. */
  function ApplyValid(r: Rules, v: View, env: map<Step, EnvStep>, settings: seq<Setting>): View
    decreases |settings|
  {
    if settings == [] then v
    else if !Accepts(r, v.endpoints, settings[0]) then ApplyValid(r, v, env, settings[1..])
    else ApplyValid(r, ApplySetting(r, v, env, settings[0]), env, settings[1..])
  }

  /** The refused settings' problems by step; a later one replaces an earlier. */
  function Problems(r: Rules, v: View, env: map<Step, EnvStep>, settings: seq<Setting>): map<Option<Step>, Problem>
    decreases |settings|
  {
    if settings == [] then map[]
    else
      CheckDecides(r, v.endpoints, settings[0]);
      var problem := Check(r, v.endpoints, settings[0]);
      if problem.Some? then map[settings[0].step := problem.value] + Problems(r, v, env, settings[1..])
      else Problems(r, ApplySetting(r, v, env, settings[0]), env, settings[1..])
  }

  /** The last setting of its step that the registry refuses. */
  ghost predicate IsLastRefused(r: Rules, eps: seq<Endpoint>, settings: seq<Setting>, k: int)
  {
    && 0 <= k < |settings| && Check(r, eps, settings[k]).Some?
    && forall j :: k < j < |settings| && settings[j].step == settings[k].step ==> Check(r, eps, settings[j]).None?
  }

  ghost predicate ReportsProblems(r: Rules, eps: seq<Endpoint>, settings: seq<Setting>, problems: map<Option<Step>, Problem>)
  {
    && (forall k :: IsLastRefused(r, eps, settings, k) ==>
          settings[k].step in problems && Check(r, eps, settings[k]) == Some(problems[settings[k].step]))
    && (forall x :: x in problems ==> exists s :: s in settings && s.step == x && Check(r, eps, s).Some?)
  }

  lemma ReportsOneMore(r: Rules, eps: seq<Endpoint>, s: Setting, rest: seq<Setting>, problems: map<Option<Step>, Problem>)
    requires ReportsProblems(r, eps, rest, problems)
    ensures ReportsProblems(r, eps, [s] + rest, (if Check(r, eps, s).Some? then map[s.step := Check(r, eps, s).value] else map[]) + problems)
  {
    hide Check, ReportsProblems;
    var out := (if Check(r, eps, s).Some? then map[s.step := Check(r, eps, s).value] else map[]) + problems;
    assert forall x :: x in out <==> x in problems || (Check(r, eps, s).Some? && x == s.step);
    ProblemsOfLast(r, eps, s, rest, problems, out);
    ProblemsHaveCause(r, eps, s, rest, problems, out);
    JoinReports(r, eps, [s] + rest, out);
  }

  lemma JoinReports(r: Rules, eps: seq<Endpoint>, all: seq<Setting>, out: map<Option<Step>, Problem>)
    requires forall k :: IsLastRefused(r, eps, all, k) ==> all[k].step in out && Check(r, eps, all[k]) == Some(out[all[k].step])
    requires forall x :: x in out ==> exists t :: t in all && t.step == x && Check(r, eps, t).Some?
    ensures ReportsProblems(r, eps, all, out)
  {
    hide Check, IsLastRefused;
  }

  lemma ProblemsOfLast(r: Rules, eps: seq<Endpoint>, s: Setting, rest: seq<Setting>, problems: map<Option<Step>, Problem>, out: map<Option<Step>, Problem>)
    requires ReportsProblems(r, eps, rest, problems)
    requires forall x :: x in problems ==> x in out && out[x] == problems[x]
    requires Check(r, eps, s).Some? && s.step !in problems ==> s.step in out && out[s.step] == Check(r, eps, s).value
    ensures var all := [s] + rest;
            forall k :: IsLastRefused(r, eps, all, k) ==> all[k].step in out && Check(r, eps, all[k]) == Some(out[all[k].step])
  {
    hide Check;
    var all := [s] + rest;
    forall k | IsLastRefused(r, eps, all, k)
      ensures all[k].step in out && Check(r, eps, all[k]) == Some(out[all[k].step])
    {
      forall x | k == 0 && x in rest && x.step == s.step
        ensures Check(r, eps, x).None?
      {
        var j :| 0 <= j < |rest| && rest[j] == x;
        assert all[j + 1] == x;
      }
      if k > 0 {
        assert forall j :: k - 1 < j < |rest| ==> rest[j] == all[j + 1];
        assert IsLastRefused(r, eps, rest, k - 1);
      }
    }
  }

  lemma ProblemsHaveCause(r: Rules, eps: seq<Endpoint>, s: Setting, rest: seq<Setting>, problems: map<Option<Step>, Problem>, out: map<Option<Step>, Problem>)
    requires ReportsProblems(r, eps, rest, problems)
    requires forall x :: x in out ==> x in problems || (Check(r, eps, s).Some? && x == s.step)
    ensures forall x :: x in out ==> exists t :: t in [s] + rest && t.step == x && Check(r, eps, t).Some?
  {
    hide Check, IsLastRefused;
    forall x | x in out
      ensures exists t :: t in [s] + rest && t.step == x && Check(r, eps, t).Some?
    {
      if x in problems {
        var t :| t in rest && t.step == x && Check(r, eps, t).Some?;
        assert t in [s] + rest;
      } else {
        assert s in [s] + rest;
      }
    }
  }

  /** Skipping, one setting at a time. */
  lemma SkipEdges(r: Rules, v: View, env: map<Step, EnvStep>, settings: seq<Setting>)
    ensures settings == [] ==> Problems(r, v, env, settings) == map[] && ApplyValid(r, v, env, settings) == v
    ensures settings != [] && Check(r, v.endpoints, settings[0]).Some? ==>
      && Problems(r, v, env, settings) == map[settings[0].step := Check(r, v.endpoints, settings[0]).value] + Problems(r, v, env, settings[1..])
      && ApplyValid(r, v, env, settings) == ApplyValid(r, v, env, settings[1..])
    ensures settings != [] && Accepts(r, v.endpoints, settings[0]) ==>
      && Problems(r, v, env, settings) == Problems(r, ApplySetting(r, v, env, settings[0]), env, settings[1..])
      && ApplyValid(r, v, env, settings) == ApplyValid(r, ApplySetting(r, v, env, settings[0]), env, settings[1..])
  {
    hide Check, Accepts, ApplySetting;
    if settings != [] { CheckDecides(r, v.endpoints, settings[0]); }
  }

  lemma ReplaceEarlier(m: map<Option<Step>, Problem>, x: Option<Step>, p: Problem, rest: map<Option<Step>, Problem>)
    ensures m[x := p] + rest == m + (map[x := p] + rest)
  {
  }

  /** The first i settings have been skipped or applied. */
  ghost predicate SkippedTo(r: Rules, v: View, env: map<Step, EnvStep>, settings: seq<Setting>, i: nat, now: View, problems: map<Option<Step>, Problem>)
  {
    && i <= |settings| && ApplyValid(r, v, env, settings) == ApplyValid(r, now, env, settings[i..])
    && Problems(r, v, env, settings) == problems + Problems(r, now, env, settings[i..])
  }

  lemma SkippedNext(r: Rules, v: View, env: map<Step, EnvStep>, settings: seq<Setting>, i: nat, now: View, problems: map<Option<Step>, Problem>)
    requires i < |settings| && SkippedTo(r, v, env, settings, i, now, problems)
    ensures Check(r, now.endpoints, settings[i]).None? <==> Accepts(r, now.endpoints, settings[i])
    ensures Accepts(r, now.endpoints, settings[i]) ==> SkippedTo(r, v, env, settings, i + 1, ApplySetting(r, now, env, settings[i]), problems)
    ensures Check(r, now.endpoints, settings[i]).Some? ==>
      SkippedTo(r, v, env, settings, i + 1, now, problems[settings[i].step := Check(r, now.endpoints, settings[i]).value])
  {
    hide Check, Accepts, ApplySetting, Problems, ApplyValid;
    assert settings[i..][1..] == settings[i + 1..];
    CheckDecides(r, now.endpoints, settings[i]);
    SkipEdges(r, now, env, settings[i..]);
    if Check(r, now.endpoints, settings[i]).Some? {
      ReplaceEarlier(problems, settings[i].step, Check(r, now.endpoints, settings[i]).value, Problems(r, now, env, settings[i + 1..]));
    }
  }

  lemma SkippedAll(r: Rules, v: View, env: map<Step, EnvStep>, settings: seq<Setting>, now: View, problems: map<Option<Step>, Problem>)
    requires SkippedTo(r, v, env, settings, |settings|, now, problems)
    ensures now == ApplyValid(r, v, env, settings) && problems == Problems(r, v, env, settings)
  {
    assert settings[|settings|..] == [];
    SkipEdges(r, now, env, []);
  }

  lemma NoneSkipped(r: Rules, v: View, env: map<Step, EnvStep>, settings: seq<Setting>)
    ensures SkippedTo(r, v, env, settings, 0, v, map[])
  {
    assert settings[0..] == settings;
  }

  function ValidOnes(r: Rules, eps: seq<Endpoint>, settings: seq<Setting>): seq<Setting>
  {
    if settings == [] then []
    else (if Accepts(r, eps, settings[0]) then [settings[0]] else []) + ValidOnes(r, eps, settings[1..])
  }

  /** Skipping refused settings is applying the list without those the base registry
      refuses: no setting makes another one valid. */
  lemma {:induction false} SkippingIsFiltering(r: Rules, v: View, eps: seq<Endpoint>, env: map<Step, EnvStep>, settings: seq<Setting>)
    requires Sound(v) && CopiesTrue(v) && forall id :: Registered(v.endpoints, id) == Registered(eps, id)
    ensures ApplyAll(r, v, env, ValidOnes(r, eps, settings)) == Some(ApplyValid(r, v, env, settings))
    ensures ReportsProblems(r, eps, settings, Problems(r, v, env, settings))
    decreases |settings|
  {
    hide Sound, CopiesTrue, Accepts, Check, ApplySetting, SameFor, Runs, ReportsProblems;
    if settings == [] {
      NoProblems(r, eps);
    } else {
      var s, rest := settings[0], settings[1..];
      SameRegistryAccepts(r, v.(endpoints := eps), v, s);
      CheckDecides(r, v.endpoints, s);
      assert settings == [s] + rest;
      if Accepts(r, v.endpoints, s) {
        OneApplied(r, v, env, s);
        var m := ApplySetting(r, v, env, s);
        SkippingIsFiltering(r, m, eps, env, rest);
        assert ValidOnes(r, eps, settings)[1..] == ValidOnes(r, eps, rest);
        ReportsOneMore(r, eps, s, rest, Problems(r, m, env, rest));
        assert map[] + Problems(r, m, env, rest) == Problems(r, m, env, rest);
      } else {
        SkippingIsFiltering(r, v, eps, env, rest);
        assert ValidOnes(r, eps, settings) == ValidOnes(r, eps, rest);
        ReportsOneMore(r, eps, s, rest, Problems(r, v, env, rest));
      }
    }
  }

  lemma NoProblems(r: Rules, eps: seq<Endpoint>)
    ensures ReportsProblems(r, eps, [], map[])
  {
  }
}
