/**
 * `EqpRuntimeRegistry`: turns the configuration into validated EQP
 * runtimes, and keeps for every PASSIVE listen endpoint a FIFO pool of
 * the EQP ids its incoming connections take in turn.
 *
 * Configuration maps are given as sequences of entries in their
 * iteration order (a `LinkedHashMap`); a null entry value is `None`.
 */
module RuntimeRegistry {
  import opened Wrappers
  import opened JavaText
  import opened Config
  import opened HostPorts
  import opened EqpRuntimes

  // ---------------------------------------------------------------------
  // Configuration

  datatype ListenProps = ListenProps(bind: Option<string>, maxConn: int)
  datatype ConnectProps = ConnectProps(target: Option<string>, connCount: int)
  datatype Endpoints = Endpoints(listen: Option<seq<(string, Option<ListenProps>)>>,
                                 connect: Option<seq<(string, Option<ConnectProps>)>>)
  datatype EqpProps = EqpProps(mode: Option<Mode>, endpoint: Option<string>, socketType: Option<string>,
                               profile: Option<string>, waitTimeoutSec: int, handshakeTimeoutSec: int,
                               vars: Option<seq<VarEntry>>)
  datatype Defaults = Defaults(defaultWaitTimeoutSec: int, defaultHandshakeTimeoutSec: int)
  datatype Props = Props(socketTypes: Option<map<string, SocketType>>, profiles: Option<map<string, Profile>>,
                         endpoints: Option<Endpoints>, defaults: Option<Defaults>,
                         eqps: Option<seq<(string, Option<EqpProps>)>>)

  function OrEmpty<T>(es: Option<seq<T>>): seq<T> {
    if es.None? then [] else es.value
  }

  function OrEmptyMap<K, V>(m: Option<map<K, V>>): map<K, V> {
    if m.None? then map[] else m.value
  }

  // ---------------------------------------------------------------------
  // Endpoint tables

  /** Every address in the table passed `HostPort.parse`. */
  predicate AllValid(m: map<string, HostPort>) {
    forall id :: id in m ==> ValidHostPort(m[id])
  }

  datatype ListenTables = ListenTables(bind: map<string, HostPort>, maxConn: map<string, int>)

  /** The listen loop: every non-null entry's bind address is parsed; the first bad one throws. */
  function ListenOf(es: seq<(string, Option<ListenProps>)>): (r: Result<ListenTables>)
    ensures r.Ok? ==> r.value.bind.Keys == r.value.maxConn.Keys
    ensures r.Ok? ==> AllValid(r.value.bind)
    ensures r.Err? ==> r.error == IllegalArgument
  {
    if es == [] then Ok(ListenTables(map[], map[]))
    else
      match ListenOf(es[..|es| - 1])
      case Err(e) => Err(e)
      case Ok(t) =>
        var (id, v) := es[|es| - 1];
        if v.None? then Ok(t)
        else
          match Parse(v.value.bind)
          case Err(e) => Err(e)
          case Ok(hp) => Ok(ListenTables(t.bind[id := hp], t.maxConn[id := v.value.maxConn]))
  }

  /** The connect loop: every non-null entry's target address is parsed. */
  function ConnectOf(es: seq<(string, Option<ConnectProps>)>): (r: Result<map<string, HostPort>>)
    ensures r.Ok? ==> AllValid(r.value)
    ensures r.Err? ==> r.error == IllegalArgument
  {
    if es == [] then Ok(map[])
    else
      match ConnectOf(es[..|es| - 1])
      case Err(e) => Err(e)
      case Ok(t) => ConnectStep(t, es[|es| - 1])
  }

  /** One turn of the connect loop. */
  function ConnectStep(t: map<string, HostPort>, entry: (string, Option<ConnectProps>)): (r: Result<map<string, HostPort>>)
    requires AllValid(t)
    ensures r.Ok? ==> forall k :: k in r.value ==> ValidHostPort(r.value[k])
    ensures r.Err? ==> r.error == IllegalArgument
  {
    if entry.1.None? then Ok(t)
    else
      match Parse(entry.1.value.target)
      case Err(e) => Err(e)
      case Ok(hp) => Ok(t[entry.0 := hp])
  }

  method BuildListen(es: seq<(string, Option<ListenProps>)>) returns (r: Result<ListenTables>)
    ensures r == ListenOf(es)
  {
    var bind: map<string, HostPort> := map[];
    var maxConn: map<string, int> := map[];
    for i := 0 to |es|
      invariant ListenOf(es[..i]) == Ok(ListenTables(bind, maxConn))
    {
      assert es[..i + 1][..i] == es[..i];
      var (id, v) := es[i];
      if v.None? {
        continue;
      }
      var hp := Parse(v.value.bind);
      if hp.Err? {
        PrefixError(es, i + 1);
        return Err(hp.error);
      }
      bind := bind[id := hp.value];
      maxConn := maxConn[id := v.value.maxConn];
    }
    assert es[..|es|] == es;
    return Ok(ListenTables(bind, maxConn));
  }

  /** A failing prefix makes the whole listen loop fail the same way. */
  lemma {:induction false} PrefixError(es: seq<(string, Option<ListenProps>)>, k: nat)
    requires k <= |es| && ListenOf(es[..k]).Err?
    ensures ListenOf(es) == ListenOf(es[..k])
    decreases |es|
  {
    if k < |es| {
      assert es[..|es| - 1][..k] == es[..k];
      PrefixError(es[..|es| - 1], k);
    } else {
      assert es[..k] == es;
    }
  }

  method BuildConnect(es: seq<(string, Option<ConnectProps>)>) returns (r: Result<map<string, HostPort>>)
    ensures r == ConnectOf(es)
  {
    var target: map<string, HostPort> := map[];
    for i := 0 to |es|
      invariant ConnectOf(es[..i]) == Ok(target)
    {
      assert es[..i + 1][..i] == es[..i];
      var next := ConnectStep(target, es[i]);
      if next.Err? {
        ConnectPrefixError(es, i + 1);
        return next;
      }
      target := next.value;
    }
    assert es[..|es|] == es;
    return Ok(target);
  }

  lemma {:induction false} ConnectPrefixError(es: seq<(string, Option<ConnectProps>)>, k: nat)
    requires k <= |es| && ConnectOf(es[..k]).Err?
    ensures ConnectOf(es) == ConnectOf(es[..k])
    decreases |es|
  {
    if k < |es| {
      assert es[..|es| - 1][..k] == es[..k];
      ConnectPrefixError(es[..|es| - 1], k);
    } else {
      assert es[..k] == es;
    }
  }

  // ---------------------------------------------------------------------
  // One EQP

  /** What the EQP loop looks things up in. */
  datatype Context = Context(socketTypes: map<string, SocketType>, profiles: map<string, Profile>,
                             listen: ListenTables, connect: map<string, HostPort>, defaults: Defaults)

  /** `requireNotBlank` of the registry: null or nothing but `trim()`-able characters throws. */
  predicate Filled(v: Option<string>) {
    v.Some? && Trim(v.value) != []
  }

  /** A configured timeout, or the default when it is not positive. */
  function TimeoutOr(configured: int, default: int): (r: int)
    ensures configured > 0 ==> r == configured
    ensures configured <= 0 ==> r == default
  {
    if configured > 0 then configured else default
  }

  /** The address an EQP uses: its listen bind when PASSIVE, its connect target when ACTIVE. */
  function AddressOf(mode: Mode, endpoint: string, ctx: Context): Option<HostPort> {
    if mode == PASSIVE then
      if endpoint in ctx.listen.bind then Some(ctx.listen.bind[endpoint]) else None
    else if endpoint in ctx.connect then Some(ctx.connect[endpoint]) else None
  }

  /**
   * The checks of one EQP in the order the loop makes them, then its
   * runtime. A PASSIVE EQP takes its endpoint's `maxConn` (20 when the
   * endpoint has none), an ACTIVE one 0.
   */
  function ResolveEqp(id: string, e: EqpProps, ctx: Context): (r: Result<EqpRuntime>)
    ensures e.mode.None? ==> r == Err(IllegalState)
    ensures e.mode.Some? && !(Filled(e.endpoint) && Filled(e.socketType) && Filled(e.profile)) ==> r == Err(IllegalState)
    ensures Filled(e.socketType) && e.socketType.value !in ctx.socketTypes ==> r.Err?
    ensures Filled(e.profile) && e.profile.value !in ctx.profiles ==> r.Err?
    ensures e.mode.Some? && Filled(e.endpoint) && AddressOf(e.mode.value, e.endpoint.value, ctx).None? ==> r.Err?
    ensures r.Ok? ==>
      && e.mode.Some? && Filled(e.endpoint) && Filled(e.socketType) && Filled(e.profile)
      && e.socketType.value in ctx.socketTypes && e.profile.value in ctx.profiles
      && AddressOf(e.mode.value, e.endpoint.value, ctx).Some?
      && r.value.mode == e.mode.value
      && r.value.endpointAddress == AddressOf(e.mode.value, e.endpoint.value, ctx).value
      && r.value.socketType == ctx.socketTypes[e.socketType.value]
      && r.value.profile == ctx.profiles[e.profile.value]
      && r.value.waitTimeoutSec == TimeoutOr(e.waitTimeoutSec, ctx.defaults.defaultWaitTimeoutSec)
      && r.value.handshakeTimeoutSec == TimeoutOr(e.handshakeTimeoutSec, ctx.defaults.defaultHandshakeTimeoutSec)
      && r.value.eqpId == Trim(id) && r.value.endpointId == Trim(e.endpoint.value)
      && r.value.passiveMaxConn ==
           (if e.mode.value == ACTIVE then 0
            else if e.endpoint.value in ctx.listen.maxConn then ctx.listen.maxConn[e.endpoint.value] else 20)
    ensures r.Err? ==> r.error in {IllegalState, IllegalArgument}
  {
    if e.mode.None? then Err(IllegalState)
    else if !Filled(e.endpoint) || !Filled(e.socketType) || !Filled(e.profile) then Err(IllegalState)
    else if e.socketType.value !in ctx.socketTypes || e.profile.value !in ctx.profiles then Err(IllegalState)
    else
      var mode, endpoint := e.mode.value, e.endpoint.value;
      var addr := AddressOf(mode, endpoint, ctx);
      if addr.None? then Err(IllegalState)
      else
        var maxConn := if mode == ACTIVE then 0
                       else if endpoint in ctx.listen.maxConn then ctx.listen.maxConn[endpoint] else 20;
        NewEqpRuntime(Some(id), Some(mode), Some(endpoint), Some(addr.value), maxConn,
                      Some(ctx.socketTypes[e.socketType.value]), e.profile, Some(ctx.profiles[e.profile.value]),
                      TimeoutOr(e.waitTimeoutSec, ctx.defaults.defaultWaitTimeoutSec),
                      TimeoutOr(e.handshakeTimeoutSec, ctx.defaults.defaultHandshakeTimeoutSec), e.vars)
  }

  // ---------------------------------------------------------------------
  // The EQP loop

  datatype EqpTables = EqpTables(eqpById: map<string, EqpRuntime>, passive: map<string, seq<string>>,
                                 active: seq<EqpRuntime>, activeCount: map<string, int>)

  /** The queue of an endpoint, empty when it has none. */
  function QueueOf(passive: map<string, seq<string>>, endpoint: string): seq<string> {
    if endpoint in passive then passive[endpoint] else []
  }

  /** The tables after one more resolved EQP. */
  function AddEqp(t: EqpTables, id: string, endpoint: string, rt: EqpRuntime): EqpTables {
    if rt.mode == PASSIVE then
      t.(eqpById := t.eqpById[id := rt], passive := t.passive[endpoint := QueueOf(t.passive, endpoint) + [id]])
    else
      var count := if endpoint in t.activeCount then t.activeCount[endpoint] else 0;
      t.(eqpById := t.eqpById[id := rt], active := t.active + [rt], activeCount := t.activeCount[endpoint := count + 1])
  }

  /** The EQP loop: null entries are skipped; the first EQP that fails to resolve throws. */
  function EqpsOf(es: seq<(string, Option<EqpProps>)>, ctx: Context): Result<EqpTables> {
    if es == [] then Ok(EqpTables(map[], map[], [], map[]))
    else
      match EqpsOf(es[..|es| - 1], ctx)
      case Err(e) => Err(e)
      case Ok(t) =>
        EqpStep(t, es[|es| - 1], ctx)
  }

  /** One turn of the EQP loop. */
  function EqpStep(t: EqpTables, entry: (string, Option<EqpProps>), ctx: Context): (r: Result<EqpTables>)
    ensures entry.1.None? ==> r == Ok(t)
    ensures entry.1.Some? && r.Ok? ==>
      var (id, e) := (entry.0, entry.1.value);
      && e.mode.Some? && e.endpoint.Some?
      && r.value.passive ==
           (if e.mode.value == PASSIVE then t.passive[e.endpoint.value := QueueOf(t.passive, e.endpoint.value) + [id]]
            else t.passive)
      && id in r.value.eqpById && r.value.eqpById[id].mode == e.mode.value && r.value.eqpById[id].eqpId == Trim(id)
      && r.value.active == t.active + (if e.mode.value == ACTIVE then [r.value.eqpById[id]] else [])
  {
    var (id, v) := entry;
    if v.None? then Ok(t)
    else
      match ResolveEqp(id, v.value, ctx)
      case Err(e) => Err(e)
      case Ok(rt) => Ok(AddEqp(t, id, v.value.endpoint.value, rt))
  }

  method BuildEqps(es: seq<(string, Option<EqpProps>)>, ctx: Context) returns (r: Result<EqpTables>)
    ensures r == EqpsOf(es, ctx)
  {
    var t := EqpTables(map[], map[], [], map[]);
    for i := 0 to |es|
      invariant EqpsOf(es[..i], ctx) == Ok(t)
    {
      assert es[..i + 1][..i] == es[..i];
      var next := EqpStep(t, es[i], ctx);
      if next.Err? {
        EqpsPrefixError(es, i + 1, ctx);
        return next;
      }
      t := next.value;
    }
    assert es[..|es|] == es;
    return Ok(t);
  }

  lemma {:induction false} EqpsPrefixError(es: seq<(string, Option<EqpProps>)>, k: nat, ctx: Context)
    requires k <= |es| && EqpsOf(es[..k], ctx).Err?
    ensures EqpsOf(es, ctx) == EqpsOf(es[..k], ctx)
    decreases |es|
  {
    if k < |es| {
      assert es[..|es| - 1][..k] == es[..k];
      EqpsPrefixError(es[..|es| - 1], k, ctx);
    } else {
      assert es[..k] == es;
    }
  }

  /** The ids of the PASSIVE EQPs configured on `endpoint`, in configuration order. */
  function PassiveIds(es: seq<(string, Option<EqpProps>)>, endpoint: string): seq<string> {
    if es == [] then []
    else
      var (id, v) := es[|es| - 1];
      PassiveIds(es[..|es| - 1], endpoint)
        + (if v.Some? && v.value.mode == Some(PASSIVE) && v.value.endpoint == Some(endpoint) then [id] else [])
  }

  /** The ids of the ACTIVE EQPs, in configuration order. */
  function ActiveIds(es: seq<(string, Option<EqpProps>)>): seq<string> {
    if es == [] then []
    else
      var (id, v) := es[|es| - 1];
      ActiveIds(es[..|es| - 1]) + (if v.Some? && v.value.mode == Some(ACTIVE) then [id] else [])
  }

  /**
   * Each endpoint's pool starts as the PASSIVE EQPs configured on it, in
   * configuration order; an endpoint no PASSIVE EQP names has no pool.
   */
  lemma {:induction false} PoolsInOrder(es: seq<(string, Option<EqpProps>)>, ctx: Context, endpoint: string)
    requires EqpsOf(es, ctx).Ok?
    ensures QueueOf(EqpsOf(es, ctx).value.passive, endpoint) == PassiveIds(es, endpoint)
    ensures endpoint in EqpsOf(es, ctx).value.passive <==> PassiveIds(es, endpoint) != []
  {
    if es != [] {
      var init := es[..|es| - 1];
      PoolsInOrder(init, ctx, endpoint);
      assert EqpsOf(es, ctx) == EqpStep(EqpsOf(init, ctx).value, es[|es| - 1], ctx);
    }
  }

  /** The runtimes in `active` are ACTIVE ones whose ids are `ids`, trimmed, in the same order. */
  predicate ActiveMatches(active: seq<EqpRuntime>, ids: seq<string>) {
    |active| == |ids| && forall i :: 0 <= i < |active| ==> active[i].mode == ACTIVE && active[i].eqpId == Trim(ids[i])
  }

  /** The ACTIVE list holds the ACTIVE EQPs' runtimes, in configuration order. */
  lemma {:induction false} ActiveInOrder(es: seq<(string, Option<EqpProps>)>, ctx: Context)
    requires EqpsOf(es, ctx).Ok?
    ensures ActiveMatches(EqpsOf(es, ctx).value.active, ActiveIds(es))
  {
    if es != [] {
      var init, last := es[..|es| - 1], es[|es| - 1];
      ActiveInOrder(init, ctx);
      assert EqpsOf(es, ctx) == EqpStep(EqpsOf(init, ctx).value, last, ctx);
      ActiveStep(EqpsOf(init, ctx).value, last, ctx, ActiveIds(init));
    }
  }

  /** One turn of the EQP loop extends the ACTIVE list exactly when the entry is ACTIVE. */
  lemma ActiveStep(t: EqpTables, entry: (string, Option<EqpProps>), ctx: Context, ids: seq<string>)
    requires ActiveMatches(t.active, ids) && EqpStep(t, entry, ctx).Ok?
    ensures ActiveMatches(EqpStep(t, entry, ctx).value.active,
      ids + (if entry.1.Some? && entry.1.value.mode == Some(ACTIVE) then [entry.0] else []))
  {
    var r := EqpStep(t, entry, ctx).value;
    if entry.1.Some? && entry.1.value.mode == Some(ACTIVE) {
      ActiveSnoc(t.active, ids, r.eqpById[entry.0], entry.0);
    } else {
      assert ids + [] == ids && t.active + [] == t.active;
    }
  }

  lemma ActiveSnoc(active: seq<EqpRuntime>, ids: seq<string>, x: EqpRuntime, id: string)
    requires ActiveMatches(active, ids) && x.mode == ACTIVE && x.eqpId == Trim(id)
    ensures ActiveMatches(active + [x], ids + [id])
  {
    var a, d := active + [x], ids + [id];
    forall i | 0 <= i < |a|
      ensures a[i].mode == ACTIVE && a[i].eqpId == Trim(d[i])
    {
      if i < |active| {
        assert a[i] == active[i] && d[i] == ids[i];
      }
    }
  }

  // ---------------------------------------------------------------------
  // The registry

  /** What the constructor builds, before it is put into the registry's fields. */
  datatype Tables = Tables(listen: ListenTables, connect: map<string, HostPort>, eqps: EqpTables)

  /**
   * The constructor on a whole configuration: a null `props` or
   * `endpoints` throws NullPointerException, then the listen loop, the
   * connect loop, the defaults (null throws) and the EQP loop, in that
   * order.
   */
  function TablesOf(props: Option<Props>): (r: Result<Tables>)
    ensures props.None? ==> r == Err(NullPointer)
    ensures props.Some? && props.value.endpoints.None? ==> r == Err(NullPointer)
  {
    if props.None? || props.value.endpoints.None? then Err(NullPointer)
    else
      var p := props.value;
      var ep := p.endpoints.value;
      match ListenOf(OrEmpty(ep.listen))
      case Err(e) => Err(e)
      case Ok(listen) =>
        match ConnectOf(OrEmpty(ep.connect))
        case Err(e) => Err(e)
        case Ok(connect) =>
          if p.defaults.None? then Err(NullPointer)
          else
            var ctx := Context(OrEmptyMap(p.socketTypes), OrEmptyMap(p.profiles), listen, connect, p.defaults.value);
            match EqpsOf(OrEmpty(p.eqps), ctx)
            case Err(e) => Err(e)
            case Ok(eqps) => Ok(Tables(listen, connect, eqps))
  }

  class EqpRuntimeRegistry {
    const eqpById: map<string, EqpRuntime>
    /** PASSIVE endpoint id to the ids of the EQPs still available on it, head first. */
    var passiveAvailable: map<string, seq<string>>
    const activeEqps: seq<EqpRuntime>
    const listenBindById: map<string, HostPort>
    const listenMaxConnById: map<string, int>
    const connectTargetById: map<string, HostPort>
    const activeEqpCountByEndpoint: map<string, int>

    constructor(t: Tables)
      ensures eqpById == t.eqps.eqpById && passiveAvailable == t.eqps.passive && activeEqps == t.eqps.active
      ensures listenBindById == t.listen.bind && listenMaxConnById == t.listen.maxConn
      ensures connectTargetById == t.connect && activeEqpCountByEndpoint == t.eqps.activeCount
    {
      eqpById := t.eqps.eqpById;
      passiveAvailable := t.eqps.passive;
      activeEqps := t.eqps.active;
      listenBindById := t.listen.bind;
      listenMaxConnById := t.listen.maxConn;
      connectTargetById := t.connect;
      activeEqpCountByEndpoint := t.eqps.activeCount;
    }

    /** `getEqp`: the runtime configured under `eqpId`, if any. */
    function GetEqp(eqpId: string): (r: Option<EqpRuntime>)
      ensures r.Some? <==> eqpId in eqpById
      ensures r.Some? ==> r.value == eqpById[eqpId]
    {
      if eqpId in eqpById then Some(eqpById[eqpId]) else None
    }

    /**
     * `reservePassiveEqpId`: takes the head of the endpoint's pool. An
     * endpoint without a pool or an empty pool gives null; a null endpoint
     * id makes the concurrent map throw.
     */
    method ReservePassiveEqpId(listenEndpointId: Option<string>) returns (r: Result<Option<string>>)
      modifies this
      ensures listenEndpointId.None? ==> r == Err(NullPointer) && passiveAvailable == old(passiveAvailable)
      ensures listenEndpointId.Some? ==>
        r.Ok? && (r.value, passiveAvailable) == Poll(old(passiveAvailable), listenEndpointId.value)
    {
      if listenEndpointId.None? {
        return Err(NullPointer);
      }
      var ep := listenEndpointId.value;
      if ep !in passiveAvailable {
        return Ok(None);
      }
      var q := passiveAvailable[ep];
      if q == [] {
        return Ok(None);
      }
      passiveAvailable := passiveAvailable[ep := q[1..]];
      return Ok(Some(q[0]));
    }

    /**
     * `releasePassiveEqpId`: puts the id back at the tail of the
     * endpoint's pool, without checking that it was reserved. Null
     * arguments and an endpoint without a pool are ignored.
     */
    method ReleasePassiveEqpId(listenEndpointId: Option<string>, eqpId: Option<string>)
      modifies this
      ensures listenEndpointId.None? || eqpId.None? ==> passiveAvailable == old(passiveAvailable)
      ensures listenEndpointId.Some? && eqpId.Some? ==>
        passiveAvailable == Offer(old(passiveAvailable), listenEndpointId.value, eqpId.value)
    {
      if listenEndpointId.None? || eqpId.None? {
        return;
      }
      var ep := listenEndpointId.value;
      if ep !in passiveAvailable {
        return;
      }
      passiveAvailable := passiveAvailable[ep := passiveAvailable[ep] + [eqpId.value]];
    }
  }

  /** `new EqpRuntimeRegistry(props)`. */
  method NewRegistry(props: Option<Props>) returns (r: Result<EqpRuntimeRegistry>)
    ensures r.Err? <==> TablesOf(props).Err?
    ensures r.Err? ==> r.error == TablesOf(props).error
    ensures r.Ok? ==>
      && fresh(r.value)
      && var t := TablesOf(props).value;
         r.value.eqpById == t.eqps.eqpById && r.value.passiveAvailable == t.eqps.passive
         && r.value.activeEqps == t.eqps.active && r.value.listenBindById == t.listen.bind
         && r.value.listenMaxConnById == t.listen.maxConn && r.value.connectTargetById == t.connect
         && r.value.activeEqpCountByEndpoint == t.eqps.activeCount
  {
    if props.None? || props.value.endpoints.None? {
      return Err(NullPointer);
    }
    var p := props.value;
    var ep := p.endpoints.value;
    var listen := BuildListen(OrEmpty(ep.listen));
    if listen.Err? {
      return Err(listen.error);
    }
    var connect := BuildConnect(OrEmpty(ep.connect));
    if connect.Err? {
      return Err(connect.error);
    }
    if p.defaults.None? {
      return Err(NullPointer);
    }
    var ctx := Context(OrEmptyMap(p.socketTypes), OrEmptyMap(p.profiles), listen.value, connect.value, p.defaults.value);
    var eqps := BuildEqps(OrEmpty(p.eqps), ctx);
    if eqps.Err? {
      return Err(eqps.error);
    }
    var reg := new EqpRuntimeRegistry(Tables(listen.value, connect.value, eqps.value));
    return Ok(reg);
  }

  // ---------------------------------------------------------------------
  // The pools as values

  /** `poll` on an endpoint's pool: the head, if there is one, and the pool without it. */
  function Poll(pools: map<string, seq<string>>, endpoint: string): (r: (Option<string>, map<string, seq<string>>))
    ensures endpoint !in pools || pools[endpoint] == [] ==> r == (None, pools)
    ensures endpoint in pools && pools[endpoint] != [] ==>
      r.0 == Some(pools[endpoint][0]) && r.1 == pools[endpoint := pools[endpoint][1..]]
  {
    if endpoint !in pools || pools[endpoint] == [] then (None, pools)
    else (Some(pools[endpoint][0]), pools[endpoint := pools[endpoint][1..]])
  }

  /** `add` on an endpoint's pool: the id goes to the tail; an endpoint without a pool is left alone. */
  function Offer(pools: map<string, seq<string>>, endpoint: string, id: string): (r: map<string, seq<string>>)
    ensures r.Keys == pools.Keys
    ensures endpoint in pools ==> r == pools[endpoint := pools[endpoint] + [id]]
    ensures endpoint !in pools ==> r == pools
  {
    if endpoint in pools then pools[endpoint := pools[endpoint] + [id]] else pools
  }

  /** A released id is taken again only after every id already waiting: the pool is first in, first out. */
  lemma FifoOrder(pools: map<string, seq<string>>, endpoint: string, id: string)
    requires endpoint in pools
    ensures var after := Offer(pools, endpoint, id);
      after[endpoint] == pools[endpoint] + [id]
      && (pools[endpoint] != [] ==> Poll(after, endpoint).0 == Some(pools[endpoint][0]))
      && (pools[endpoint] == [] ==> Poll(after, endpoint) == (Some(id), pools))
  {
    var after := Offer(pools, endpoint, id);
    if pools[endpoint] == [] {
      assert after[endpoint][1..] == pools[endpoint];
      assert after[endpoint := after[endpoint][1..]] == pools[endpoint := pools[endpoint]];
      assert pools[endpoint := pools[endpoint]] == pools;
    }
  }

  /** Reserving and then releasing the same id puts it at the tail: no id is lost. */
  lemma ReserveRelease(pools: map<string, seq<string>>, endpoint: string)
    requires endpoint in pools && pools[endpoint] != []
    ensures var (taken, rest) := Poll(pools, endpoint);
      taken.Some? && multiset(Offer(rest, endpoint, taken.value)[endpoint]) == multiset(pools[endpoint])
  {
    var q := pools[endpoint];
    assert q == [q[0]] + q[1..];
  }

  /** Release does not check: releasing an id twice puts it in the pool twice. */
  lemma DoubleRelease(pools: map<string, seq<string>>, endpoint: string, id: string)
    requires endpoint in pools
    ensures multiset(Offer(Offer(pools, endpoint, id), endpoint, id)[endpoint])[id]
            == multiset(pools[endpoint])[id] + 2
  {
  }
}
