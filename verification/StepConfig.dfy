/** The overlay carried out on shared objects: a clone gets its own registry list,
    role bindings, pin table and source tables, but shares every parameter map with the
    configuration it was cloned from. */
module StepConfig {
  import opened Optional
  import opened StepSettings

  /** A parameter map, shared by every table that refers to it. */
  class ParamMap {
    var entries: Params

    constructor (entries: Params)
      ensures this.entries == entries
    {
      this.entries := entries;
    }
  }

  datatype PinRow = PinRow(aliasName: string, expected: string, revision: string, promptVersion: string, params: ParamMap?)

  datatype EnvRow = EnvRow(endpoint: string, model: string, pin: PinRow)

  const NO_ROW := PinRow("", "", "", "", null)

  function PinIn(row: PinRow): Pin
    reads row.params
  {
    Pin(row.aliasName, row.expected, row.revision, row.promptVersion,
        if row.params == null then None else Some(row.params.entries))
  }

  function PinsIn(rows: map<Step, PinRow>): map<Step, Pin>
    reads set t | t in rows :: rows[t].params
  {
    map t | t in rows :: PinIn(rows[t])
  }

  function EnvIn(env: map<Step, EnvRow>): map<Step, EnvStep>
    reads set t | t in env :: env[t].pin.params
  {
    map t | t in env :: EnvStepIn(env[t])
  }

  function EnvStepIn(row: EnvRow): EnvStep
    reads row.pin.params
  {
    EnvStep(row.endpoint, row.model, PinIn(row.pin))
  }

  const STEPS := [Propose, Decide, Scan, Embed]

  /** Pins read the same while the parameter maps they share are not written. */
  twostate lemma PinsStay(rows: map<Step, PinRow>)
    requires forall t :: t in rows && rows[t].params != null ==> unchanged(rows[t].params)
    ensures PinsIn(rows) == old(PinsIn(rows))
  {
  }

  twostate lemma EnvStays(env: map<Step, EnvRow>)
    requires forall t :: t in env && env[t].pin.params != null ==> unchanged(env[t].pin.params)
    ensures EnvIn(env) == old(EnvIn(env))
  {
  }

  twostate lemma EnvStepStays(row: EnvRow)
    requires row.pin.params != null ==> unchanged(row.pin.params)
    ensures EnvStepIn(row) == old(EnvStepIn(row))
  {
  }

  lemma PinsInNone()
    ensures PinsIn(map[]) == map[]
  {
  }

  class EndpointList {
    var items: seq<Endpoint>

    constructor (items: seq<Endpoint>)
      ensures this.items == items
    {
      this.items := items;
    }

    method Find(id: string) returns (r: Option<Endpoint>)
      ensures r == StepSettings.Find(items, id)
    {
      for i := 0 to |items|
        invariant StepSettings.Find(items, id) == StepSettings.Find(items[i..], id)
      {
        if items[i].id == id { return Some(items[i]); }
      }
      return None;
    }

    method Registered(id: string) returns (r: Option<Endpoint>)
      ensures r == StepSettings.Registered(items, id)
    {
      for i := 0 to |items|
        invariant StepSettings.Registered(items, id) == StepSettings.Registered(items[i..], id)
      {
        if items[i].id == id && items[i].baseId == "" { return Some(items[i]); }
      }
      return None;
    }

    /** The first free name for the step's copy of an endpoint. */
    method DerivedId(base: string, t: Step) returns (id: string)
      ensures id == FreshIdFrom(items, base, t, 1)
    {
      hide FreshIdFrom, StepSettings.DerivedId, Ids, Tried;
      var i := 1;
      id := StepSettings.DerivedId(base, t, i);
      NextName(items, base, t, i);
      while id in Ids(items)
        invariant i >= 1 && id == StepSettings.DerivedId(base, t, i)
        invariant FreshIdFrom(items, base, t, 1) == FreshIdFrom(items, base, t, i)
        decreases |Ids(items) - Tried(base, t, i)|
      {
        NamesRunOut(items, base, t, i);
        NextName(items, base, t, i);
        i := i + 1;
        id := StepSettings.DerivedId(base, t, i);
      }
      NextName(items, base, t, i);
    }

    /** Deletes in place. */
    method DeleteById(id: string)
      modifies this
      ensures items == Delete(old(items), id)
    {
      hide Delete;
      var kept := [];
      for i := 0 to |items|
        invariant items == old(items)
        invariant Delete(old(items), id) == kept + Delete(items[i..], id)
      {
        DeleteEdges(items[i..], id);
        assert items[i..][1..] == items[i + 1..];
        if items[i].id != id { kept := kept + [items[i]]; }
      }
      DeleteEdges([], id);
      assert items[|items|..] == [];
      items := kept;
    }
  }

  lemma NextName(eps: seq<Endpoint>, base: string, t: Step, i: nat)
    requires i >= 1
    ensures FreshIdFrom(eps, base, t, i) ==
            if StepSettings.DerivedId(base, t, i) in Ids(eps) then FreshIdFrom(eps, base, t, i + 1) else StepSettings.DerivedId(base, t, i)
  {
    hide StepSettings.DerivedId, Ids, Tried;
  }

  lemma DeleteEdges(eps: seq<Endpoint>, id: string)
    ensures Delete(eps, id) ==
            if eps == [] then [] else (if eps[0].id == id then [] else [eps[0]]) + Delete(eps[1..], id)
  {
  }

  class Roles {
    var eval: string
    var decide: string
    var scan: string
    var embeddings: string

    constructor (eval: string, decide: string, scan: string, embeddings: string)
      ensures this.eval == eval && this.decide == decide && this.scan == scan && this.embeddings == embeddings
    {
      this.eval, this.decide, this.scan, this.embeddings := eval, decide, scan, embeddings;
    }

    function Of(t: Step): string
      reads this
    {
      match t
      case Propose => eval
      case Decide => decide
      case Scan => scan
      case Embed => embeddings
    }

    function Bindings(): map<Step, string>
      reads this
    {
      map[Propose := eval, Decide := decide, Scan := scan, Embed := embeddings]
    }

    method Bind(t: Step, id: string)
      modifies this
      ensures Bindings() == old(Bindings())[t := id]
    {
      match t
      case Propose => eval := id;
      case Decide => decide := id;
      case Scan => scan := id;
      case Embed => embeddings := id;
    }
  }

  class Table<V> {
    var rows: map<Step, V>

    constructor (rows: map<Step, V>)
      ensures this.rows == rows
    {
      this.rows := rows;
    }
  }

  const UNBOUND: map<Step, string> := map[Propose := "", Decide := "", Scan := "", Embed := ""]

  function Sources(table: Table?<Source>): map<Step, Source>
    reads table
  {
    if table == null then map[] else table.rows
  }

  class Config {
    var endpoints: EndpointList
    var roles: Roles?
    var models: Table?<PinRow>
    var stepSources: Table?<Source>
    var policySources: Table?<Source>
    var env: Option<map<Step, EnvRow>>

    constructor (endpoints: EndpointList, roles: Roles?, models: Table?<PinRow>, stepSources: Table?<Source>, policySources: Table?<Source>, env: Option<map<Step, EnvRow>>)
      ensures this.endpoints == endpoints && this.roles == roles && this.models == models
      ensures this.stepSources == stepSources && this.policySources == policySources && this.env == env
    {
      this.endpoints, this.roles, this.models := endpoints, roles, models;
      this.stepSources, this.policySources, this.env := stepSources, policySources, env;
    }

    /** The objects of this configuration that an overlay may write: never a ParamMap. */
    ghost function Owned(): set<object?>
      reads this
    {
      {this, endpoints, roles, models, stepSources, policySources}
    }

    /** What Clone returns: everything a setting writes is there and is not shared. */
    ghost predicate Ready()
      reads this
    {
      && roles != null && models != null && env.Some?
      && (stepSources != null ==> stepSources != policySources)
    }

    ghost function ParamsHeld(): set<ParamMap?>
      reads this, models
    {
      if models == null then {} else set t | t in models.rows :: models.rows[t].params
    }

    ghost function Binds(): map<Step, string>
      reads this, roles
    {
      if roles == null then UNBOUND else roles.Bindings()
    }

    ghost function Pins(): map<Step, Pin>
      reads this, models, ParamsHeld()
    {
      if models == null then map[] else PinsIn(models.rows)
    }

    /** The overlay this configuration stands for. */
    ghost function Overlay(): View
      reads this, endpoints, roles, models, stepSources, policySources, ParamsHeld()
    {
      View(endpoints.items, Binds(), Pins(), Sources(stepSources), Sources(policySources))
    }

    // ---- Reading ----

    method EndpointForRole(t: Step) returns (r: Option<Endpoint>)
      ensures r == EndpointOf(Overlay(), t) && Overlay() == old(Overlay())
    {
      if roles == null || roles.Of(t) == "" { return None; }
      r := endpoints.Find(roles.Of(t));
    }

    method Validate(r: Rules, s: Setting) returns (problem: Option<Problem>)
      ensures problem == Check(r, endpoints.items, s)
    {
      hide Trim, HasSpace;
      var id, model := Trim(s.endpointId), Trim(s.model);
      if s.step.None? { return Some(UnknownStep); }
      if id == "" { return Some(NoEndpoint); }
      var ep := endpoints.Registered(id);
      if ep.None? { return Some(NotRegistered); }
      if ep.value.kind != KindOf(s.step.value) { return Some(WrongKind); }
      if model == "" { return Some(NoModel); }
      if HasSpace(model) { return Some(SpaceInModel); }
      if ep.value.kind == SystemOne {
        if !r.pinnedModel(model) { return Some(NotPinned); }
        if !r.routeOk(ep.value, model) { return Some(RouteRefused); }
      }
      if HasSpace(Trim(s.expected)) || HasSpace(Trim(s.revision)) { return Some(SpaceInPin); }
      if !r.paramsOk(s.step.value, s.params) { return Some(UnknownParams); }
      return None;
    }

    // ---- Writing one part ----

    /** No part is exchanged, but for a policy source table made when there is none. */
    twostate predicate KeepsParts()
      reads this
    {
      && Ready() && env == old(env) && endpoints == old(endpoints) && roles == old(roles)
      && models == old(models) && stepSources == old(stepSources)
      && (policySources == old(policySources) || (policySources != null && fresh(policySources)))
    }

    method SetStepSource(t: Step, source: Source)
      requires Ready()
      modifies this, stepSources
      ensures Ready() && env == old(env) && endpoints == old(endpoints) && roles == old(roles)
      ensures models == old(models) && policySources == old(policySources) && fresh(Owned() - old(Owned()))
      ensures forall p: ParamMap :: old(allocated(p)) ==> p.entries == old(p.entries)
      ensures Overlay() == old(Overlay()).(stepSources := old(Overlay()).stepSources[t := source])
    {
      hide PinsIn;
      if stepSources == null {
        stepSources := new Table(map[]);
      }
      stepSources.rows := stepSources.rows[t := source];
      PinsStay(models.rows);
    }

    method SetPolicySource(t: Step, source: Source)
      requires Ready()
      modifies this, policySources
      ensures KeepsParts()
      ensures forall p: ParamMap :: old(allocated(p)) ==> p.entries == old(p.entries)
      ensures Overlay() == old(Overlay()).(policySources := old(Overlay()).policySources[t := source])
    {
      hide PinsIn;
      if policySources == null {
        policySources := new Table(map[]);
      }
      policySources.rows := policySources.rows[t := source];
      PinsStay(models.rows);
    }

    method SetPin(t: Step, row: PinRow)
      requires models != null
      modifies models
      ensures Pins() == old(Pins())[t := PinIn(row)]
    {
      models.rows := models.rows[t := row];
    }

    /** Deletes the step's own synthesized entry, by its own id. */
    method DropOwn(t: Step, cur: Option<Endpoint>)
      requires cur == EndpointOf(Overlay(), t)
      modifies endpoints
      ensures endpoints.items == WithoutOwn(old(Overlay()), t)
    {
      hide Delete, EndpointOf;
      if cur.Some? && cur.value.baseId != "" {
        endpoints.DeleteById(cur.value.id);
      }
    }

    /** Adds the step's copy when the model is not the endpoint's own, and binds the role. */
    method BindTo(t: Step, base: Endpoint, model: string)
      requires roles != null
      modifies endpoints, roles
      ensures var id := FreshIdFrom(old(endpoints.items), base.id, t, 1);
              if base.model == model
              then endpoints.items == old(endpoints.items) && Binds() == old(Binds())[t := base.id]
              else endpoints.items == old(endpoints.items) + [Copy(base, model, id)] && Binds() == old(Binds())[t := id]
    {
      hide FreshIdFrom;
      var id := base.id;
      if base.model != model {
        id := endpoints.DerivedId(base.id, t);
        endpoints.items := endpoints.items + [base.(id := id, model := model, baseId := base.id)];
      }
      roles.Bind(t, id);
    }

    /** Removes the step's own copy, adds at most one, and binds the role. */
    method RebindTo(t: Step, cur: Option<Endpoint>, base: Endpoint, model: string)
      requires Ready() && cur == EndpointOf(Overlay(), t)
      modifies endpoints, roles
      ensures Overlay() == Rebind(old(Overlay()), t, base, model)
    {
      hide FreshIdFrom, WithoutOwn, EndpointOf, PinsIn;
      DropOwn(t, cur);
      BindTo(t, base, model);
      PinsStay(models.rows);
    }

    /** A step's pin together with the layer it came from. */
    method WritePin(t: Step, row: PinRow, source: Source)
      requires Ready()
      modifies this, models, policySources
      ensures KeepsParts()
      ensures forall p: ParamMap :: old(allocated(p)) ==> p.entries == old(p.entries)
      ensures Overlay() == WithPin(old(Overlay()), t, old(PinIn(row)), source)
    {
      hide PinsIn, PinIn;
      SetPin(t, row);
      PinStays(row);
      SetPolicySource(t, source);
    }

    /** The setting's own pin; the prompt version stays. */
    method OwnRow(r: Rules, s: Setting, t: Step) returns (row: PinRow)
      requires Ready()
      ensures (row.params == null || fresh(row.params)) && Overlay() == old(Overlay())
      ensures PinIn(row) == Pin("", Trim(s.expected), Trim(s.revision), PinOf(Overlay(), t).promptVersion, IfAny(PinParams(r, s.params)))
    {
      hide PinParams, PinsIn, PinIn, Trim;
      var prev := if t in models.rows then models.rows[t] else NO_ROW;
      PinRowOf(models.rows, t);
      PinInIs(prev);
      var params := CloneParams(PinParams(r, s.params));
      PinsStay(models.rows);
      row := PinRow("", Trim(s.expected), Trim(s.revision), prev.promptVersion, params);
      PinInIs(row);
    }

    /** The step's pin after its endpoint or model changed, or was pinned. */
    method RepinStep(r: Rules, s: Setting, t: Step)
      requires Ready()
      modifies this, models, policySources
      ensures KeepsParts()
      ensures forall p: ParamMap :: old(allocated(p)) ==> p.entries == old(p.entries)
      ensures Overlay() == Repin(r, old(Overlay()), old(EnvIn(env.value)), s, t)
    {
      hide HasPin, PinParams, Trim, PinsIn, WithPin, PinIn, Repin, IsEnvBinding, Overlay, PinOf, IfAny;
      RepinIs(r, Overlay(), EnvIn(env.value), s, t);
      EnvBindingIn(env.value, t, Trim(s.endpointId), Trim(s.model));
      if IsEnvRow(env.value, t, Trim(s.endpointId), Trim(s.model)) && !HasPin(r, s) {
        WritePin(t, env.value[t].pin, FromEnv);
      } else {
        var row := OwnRow(r, s, t);
        WritePin(t, row, s.source);
      }
    }

    /** The step's pin with its policy keys replaced, in a parameter map of its own. */
    method PolicyRow(r: Rules, t: Step, policy: Params) returns (row: PinRow)
      requires Ready()
      ensures row.params != null && fresh(row.params) && Overlay() == old(Overlay())
      ensures var pin := PinOf(Overlay(), t);
              PinIn(row) == pin.(params := Some((if pin.params.Some? then PinParams(r, pin.params.value) else map[]) + policy))
    {
      hide PinParams, PinsIn, PinIn;
      var pin := if t in models.rows then models.rows[t] else NO_ROW;
      PinRowOf(models.rows, t);
      PinInIs(pin);
      var own := if pin.params != null then PinParams(r, pin.params.entries) else map[];
      var params := new ParamMap(own + policy);
      PinsStay(models.rows);
      row := pin.(params := params);
      PinInIs(row);
    }

    /** Lays the policy keys over the pin, in a parameter map of its own. */
    method ApplyPolicyParams(r: Rules, t: Step, policy: Params, source: Source)
      requires Ready()
      modifies this, models, policySources
      ensures KeepsParts()
      ensures forall p: ParamMap :: old(allocated(p)) ==> p.entries == old(p.entries)
      ensures Overlay() == LayPolicy(r, old(Overlay()), t, policy, source)
    {
      hide PinParams, PinsIn, WithPin, PinIn, LayPolicy, Overlay, PinOf;
      LayPolicyIs(r, Overlay(), t, policy, source);
      if |policy| > 0 {
        var row := PolicyRow(r, t, policy);
        WritePin(t, row, source);
      }
    }

    // ---- One setting ----

    /** Rebinds and repins the step, unless it already runs this endpoint and model. */
    method BindAndPin(r: Rules, s: Setting, t: Step, base: Endpoint)
      requires Ready() && base.id == Trim(s.endpointId)
      modifies this, endpoints, roles, models, policySources
      ensures KeepsParts()
      ensures forall p: ParamMap :: old(allocated(p)) ==> p.entries == old(p.entries)
      ensures Overlay() == Bound(r, old(Overlay()), old(EnvIn(env.value)), s, t, base)
    {
      hide Overlay, HasPin, Trim, Rebind, Repin, EnvIn, EndpointOf;
      var id, model := Trim(s.endpointId), Trim(s.model);
      var cur := EndpointForRole(t);
      if !(cur.Some? && !HasPin(r, s) && cur.value.model == model && (cur.value.id == id || cur.value.baseId == id)) {
        RebindTo(t, cur, base, model);
        EnvStays(env.value);
        RepinStep(r, s, t);
      }
    }

    /** Applies one setting in place; a refused one changes nothing. */
    method ApplyStepSetting(r: Rules, s: Setting) returns (problem: Option<Problem>)
      requires Ready()
      modifies Owned()
      ensures Ready() && env == old(env) && fresh(Owned() - old(Owned()))
      ensures forall p: ParamMap :: old(allocated(p)) ==> p.entries == old(p.entries)
      ensures EnvIn(env.value) == old(EnvIn(env.value))
      ensures problem == Check(r, old(Overlay()).endpoints, s)
      ensures problem.None? <==> Accepts(r, old(Overlay()).endpoints, s)
      ensures Overlay() == if problem.None? then ApplySetting(r, old(Overlay()), old(EnvIn(env.value)), s) else old(Overlay())
    {
      hide Accepts, Check, Overlay, Trim, Bound, LayPolicy, PolicyParams, EnvIn, ApplySetting;
      OverlayEndpoints();
      problem := Validate(r, s);
      CheckDecides(r, endpoints.items, s);
      OverlayStays();
      EnvStays(env.value);
      if problem.None? {
        ApplySettingIs(r, Overlay(), EnvIn(env.value), s);
        var base := endpoints.Registered(Trim(s.endpointId));
        OverlayStays();
        EnvStays(env.value);
        BindAndPin(r, s, s.step.value, base.value);
        SetStepSource(s.step.value, s.source);
        ApplyPolicyParams(r, s.step.value, PolicyParams(r, s.params), s.source);
        EnvStays(env.value);
      }
    }

    twostate lemma OverlayStays()
      requires unchanged(this) && unchanged(endpoints)
      requires (roles != null ==> unchanged(roles)) && (models != null ==> unchanged(models))
      requires (stepSources != null ==> unchanged(stepSources)) && (policySources != null ==> unchanged(policySources))
      requires forall p :: p in ParamsHeld() && p != null ==> unchanged(p)
      ensures Overlay() == old(Overlay())
    {
      if models != null {
        assert forall t :: t in models.rows ==> models.rows[t].params in ParamsHeld();
        PinsStay(models.rows);
      }
    }

    // ---- Cloning and lists of settings ----

    /** The environment's bindings: remembered, or this configuration's own. */
    ghost function Environment(): map<Step, EnvStep>
      reads this, endpoints, roles, models, stepSources, policySources, ParamsHeld()
      reads if env.Some? then set t | t in env.value :: env.value[t].pin.params else {}
    {
      if env.Some? then EnvIn(env.value) else Snapshot(Overlay())
    }

    method EnvRowFor(t: Step) returns (row: EnvRow)
      ensures EnvStepIn(row) == EnvStepOf(Overlay(), t)
      ensures Overlay() == old(Overlay())
    {
      hide EndpointOf;
      var ep := EndpointForRole(t);
      var pin := if models != null && t in models.rows then models.rows[t] else NO_ROW;
      if models != null { PinRowOf(models.rows, t); }
      row := if ep.Some? then EnvRow(ep.value.id, ep.value.model, pin) else EnvRow("", "", pin);
    }

    method SnapshotEnv() returns (snap: map<Step, EnvRow>)
      ensures EnvIn(snap) == Snapshot(Overlay())
      ensures Overlay() == old(Overlay())
    {
      hide Overlay, EnvStepOf, EnvStepIn;
      snap := map[];
      for i := 0 to |STEPS|
        invariant Overlay() == old(Overlay())
        invariant forall t :: t in snap <==> t in STEPS[..i]
        invariant forall t :: t in snap ==> EnvStepIn(snap[t]) == EnvStepOf(Overlay(), t)
      {
        label before:
        var row := EnvRowFor(STEPS[i]);
        forall t | t in snap
          ensures EnvStepIn(snap[t]) == EnvStepOf(Overlay(), t)
        {
          EnvStepStays@before(snap[t]);
        }
        snap := snap[STEPS[i] := row];
      }
      assert STEPS[..|STEPS|] == STEPS;
      EveryStep();
      SnapshotRows(Overlay(), snap);
    }

    /** A copy whose registry list, bindings and tables may be written; the parameter
        maps are shared. */
    method Clone() returns (n: Config)
      ensures n.Ready() && fresh(n) && forall o :: o in n.Owned() && o != null ==> fresh(o)
      ensures n.Overlay() == Overlay() && EnvIn(n.env.value) == Environment()
      ensures Overlay() == old(Overlay()) && Environment() == old(Environment())
    {
      hide Overlay, Environment, EnvIn;
      var rows: map<Step, EnvRow>;
      EnvironmentIs();
      if env.Some? {
        rows := env.value;
      } else {
        rows := SnapshotEnv();
      }
      label before:
      n := CopyParts(rows);
      OverlayStays();
      EnvironmentStays();
      EnvStays@before(rows);
    }

    method CopyParts(rows: map<Step, EnvRow>) returns (n: Config)
      ensures n.Ready() && fresh(n) && n.env == Some(rows) && forall o :: o in n.Owned() && o != null ==> fresh(o)
      ensures n.Overlay() == Overlay()
    {
      hide PinsIn, Binds;
      var own := CopyRoles();
      var list := new EndpointList(endpoints.items);
      var table := new Table(if models != null then models.rows else map[]);
      var steps := CopySources(stepSources);
      var policies := CopySources(policySources);
      n := new Config(list, own, table, steps, policies, Some(rows));
      PinsInNone();
      CopiedOverlay(n);
    }

    lemma CopiedOverlay(n: Config)
      requires n.endpoints.items == endpoints.items && n.roles != null && n.roles.Bindings() == Binds() && n.models != null
      requires n.models.rows == (if models != null then models.rows else map[])
      requires Sources(n.stepSources) == Sources(stepSources) && Sources(n.policySources) == Sources(policySources)
      ensures n.Overlay() == Overlay()
    {
      hide PinsIn;
      PinsInNone();
    }

    method CopyRoles() returns (own: Roles)
      ensures fresh(own) && own.Bindings() == Binds()
    {
      if roles != null {
        own := new Roles(roles.eval, roles.decide, roles.scan, roles.embeddings);
      } else {
        own := new Roles("", "", "", "");
      }
    }

    lemma EnvironmentIs()
      ensures Environment() == if env.Some? then EnvIn(env.value) else Snapshot(Overlay())
    {
    }

    twostate lemma EnvironmentStays()
      requires unchanged(this) && Overlay() == old(Overlay())
      requires env.Some? ==> forall t :: t in env.value && env.value[t].pin.params != null ==> unchanged(env.value[t].pin.params)
      ensures Environment() == old(Environment())
    {
      if env.Some? { EnvStays(env.value); }
    }

    /** A configuration with every setting applied in order, or the first refusal. This
        configuration, and everything it shares, is only read. */
    method WithStepSettings(r: Rules, settings: seq<Setting>) returns (n: Config?, refusal: Option<Refusal>)
      ensures refusal == FirstRefusal(r, Overlay(), Environment(), settings) && (n == null <==> refusal.Some?)
      ensures n == null <==> ApplyAll(r, Overlay(), Environment(), settings).None?
      ensures n != null ==> fresh(n) && n.Ready() && n.Overlay() == ApplyAll(r, Overlay(), Environment(), settings).value
      ensures n != null ==> EnvIn(n.env.value) == Environment()
      ensures Overlay() == old(Overlay()) && Environment() == old(Environment())
      ensures forall p: ParamMap :: old(allocated(p)) ==> p.entries == old(p.entries)
    {
      hide Overlay, Environment, EnvIn, Accepts, Check, ApplySetting;
      n := Clone();
      ghost var v, e := Overlay(), Environment();
      RefusalFailsList(r, v, e, settings);
      for i := 0 to |settings|
        invariant fresh(n) && n.Ready() && forall o :: o in n.Owned() && o != null ==> fresh(o)
        invariant Overlay() == v && Environment() == e && EnvIn(n.env.value) == e
        invariant ApplyAll(r, v, e, settings) == ApplyAll(r, n.Overlay(), e, settings[i..])
        invariant FirstRefusal(r, v, e, settings) == FirstRefusal(r, n.Overlay(), e, settings[i..])
        invariant forall p: ParamMap :: old(allocated(p)) ==> p.entries == old(p.entries)
      {
        assert settings[i..][1..] == settings[i + 1..];
        var problem := n.ApplyStepSetting(r, settings[i]);
        OverlayStays();
        EnvironmentStays();
        if problem.Some? { return null, Some(Refusal(settings[i], problem.value)); }
      }
      assert settings[|settings|..] == [];
      refusal := None;
    }

    /** The same, skipping refused settings and reporting their problems by step. */
    method WithValidStepSettings(r: Rules, settings: seq<Setting>) returns (n: Config, problems: map<Option<Step>, Problem>)
      ensures fresh(n) && n.Ready() && n.Overlay() == ApplyValid(r, Overlay(), Environment(), settings)
      ensures problems == Problems(r, Overlay(), Environment(), settings)
      ensures Overlay() == old(Overlay()) && Environment() == old(Environment())
      ensures forall p: ParamMap :: old(allocated(p)) ==> p.entries == old(p.entries)
    {
      hide Overlay, Environment, EnvIn, Accepts, Check, ApplySetting, SkippedTo;
      problems := map[];
      n := Clone();
      ghost var v, e := Overlay(), Environment();
      NoneSkipped(r, v, e, settings);
      for i := 0 to |settings|
        invariant fresh(n) && n.Ready() && forall o :: o in n.Owned() && o != null ==> fresh(o)
        invariant Overlay() == v && Environment() == e && EnvIn(n.env.value) == e
        invariant SkippedTo(r, v, e, settings, i, n.Overlay(), problems)
        invariant forall p: ParamMap :: old(allocated(p)) ==> p.entries == old(p.entries)
      {
        SkippedNext(r, v, e, settings, i, n.Overlay(), problems);
        var problem := n.ApplyStepSetting(r, settings[i]);
        OverlayStays();
        EnvironmentStays();
        if problem.Some? { problems := problems[settings[i].step := problem.value]; }
      }
      SkippedAll(r, v, e, settings, n.Overlay(), problems);
    }

    lemma OverlayEndpoints()
      ensures Overlay().endpoints == endpoints.items
    {
    }
  }

  function Bound(r: Rules, v: View, env: map<Step, EnvStep>, s: Setting, t: Step, base: Endpoint): View
  {
    if Unchanged(v, t, Trim(s.endpointId), Trim(s.model)) && !HasPin(r, s) then v
    else Repin(r, Rebind(v, t, base, Trim(s.model)), env, s, t)
  }

  lemma ApplySettingIs(r: Rules, v: View, env: map<Step, EnvStep>, s: Setting)
    requires Accepts(r, v.endpoints, s)
    ensures s.step.Some? && StepSettings.Registered(v.endpoints, Trim(s.endpointId)).Some?
    ensures var t := s.step.value;
            var bound := Bound(r, v, env, s, t, StepSettings.Registered(v.endpoints, Trim(s.endpointId)).value);
            ApplySetting(r, v, env, s) ==
            LayPolicy(r, bound.(stepSources := bound.stepSources[t := s.source]), t, PolicyParams(r, s.params), s.source)
  {
    hide HasPin, Trim, Rebind, Repin, LayPolicy, PolicyParams, Unchanged;
  }

  /** nil stays nil. */
  method CopySources(table: Table?<Source>) returns (copy: Table?<Source>)
    ensures if table == null then copy == null else copy != null && fresh(copy) && copy.rows == table.rows
  {
    copy := null;
    if table != null { copy := new Table(table.rows); }
  }

  lemma EveryStep()
    ensures forall t :: t in STEPS && t in {Propose, Decide, Scan, Embed}
  {
    forall t: Step
      ensures t in STEPS && t in {Propose, Decide, Scan, Embed}
    {
      assert STEPS[0] == Propose && STEPS[1] == Decide && STEPS[2] == Scan && STEPS[3] == Embed;
      match t { case Propose => case Decide => case Scan => case Embed => }
    }
  }

  lemma SnapshotRows(v: View, snap: map<Step, EnvRow>)
    requires forall t :: t in snap && EnvStepIn(snap[t]) == EnvStepOf(v, t)
    ensures EnvIn(snap) == Snapshot(v)
  {
    hide EnvStepIn, EnvStepOf;
    forall t
      ensures t in EnvIn(snap) && t in Snapshot(v) && EnvIn(snap)[t] == Snapshot(v)[t]
    {
      EveryStep();
      assert t in STEPS;
    }
  }

  /** nil for no keys. */
  method CloneParams(p: Params) returns (m: ParamMap?)
    ensures if |p| == 0 then m == null else m != null && fresh(m) && m.entries == p
  {
    m := null;
    if |p| > 0 { m := new ParamMap(p); }
  }

  function WithPin(v: View, t: Step, pin: Pin, source: Source): View
  {
    v.(pins := v.pins[t := pin], policySources := v.policySources[t := source])
  }

  lemma RepinIs(r: Rules, v: View, env: map<Step, EnvStep>, s: Setting, t: Step)
    ensures Repin(r, v, env, s, t) ==
            if IsEnvBinding(env, t, Trim(s.endpointId), Trim(s.model)) && !HasPin(r, s) then WithPin(v, t, env[t].pin, FromEnv)
            else WithPin(v, t, Pin("", Trim(s.expected), Trim(s.revision), PinOf(v, t).promptVersion, IfAny(PinParams(r, s.params))), s.source)
  {
    hide HasPin, Trim, PinParams, PinOf, IfAny;
  }

  lemma LayPolicyIs(r: Rules, v: View, t: Step, policy: Params, source: Source)
    ensures LayPolicy(r, v, t, policy, source) ==
            if |policy| == 0 then v
            else
              var pin := PinOf(v, t);
              var own := if pin.params.Some? then PinParams(r, pin.params.value) else map[];
              WithPin(v, t, pin.(params := Some(own + policy)), source)
  {
    hide PinParams, PinOf;
  }

  predicate IsEnvRow(env: map<Step, EnvRow>, t: Step, id: string, model: string)
  {
    t in env && env[t].endpoint != "" && env[t].endpoint == id && env[t].model == model
  }

  lemma EnvBindingIn(env: map<Step, EnvRow>, t: Step, id: string, model: string)
    ensures IsEnvBinding(EnvIn(env), t, id, model) <==> IsEnvRow(env, t, id, model)
    ensures t in env ==> t in EnvIn(env) && EnvIn(env)[t].pin == PinIn(env[t].pin)
  {
  }

  lemma PinInIs(row: PinRow)
    ensures PinIn(row) == Pin(row.aliasName, row.expected, row.revision, row.promptVersion,
                              if row.params == null then None else Some(row.params.entries))
  {
  }

  lemma PinRowOf(rows: map<Step, PinRow>, t: Step)
    ensures (if t in PinsIn(rows) then PinsIn(rows)[t] else NO_PIN) == PinIn(if t in rows then rows[t] else NO_ROW)
  {
  }

  twostate lemma PinStays(row: PinRow)
    requires row.params != null ==> unchanged(row.params)
    ensures PinIn(row) == old(PinIn(row))
  {
  }
}
