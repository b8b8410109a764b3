/** The OPC UA connection pool: devices share one session per endpoint. */
module OpcuaPool {
  import opened Domain
  import opened OpcuaSession

  type Sessions = map<EndpointKey, Session>
  type Bindings = map<DeviceId, DeviceBinding>
  type History = map<EndpointKey, seq<Attempt>>

  // ----- the two indexes -----

  /** A device has a binding exactly when one session, the one with the binding's key, lists the
      device, and it lists it with that very binding. */
  ghost predicate Agree(sessions: Sessions, devices: Bindings) {
    && (forall d :: d in devices ==> Indexed(sessions, devices, d))
    && (forall k, d :: k in sessions && d in sessions[k].devices ==> Listed(sessions, devices, k, d))
  }

  ghost predicate Indexed(sessions: Sessions, devices: Bindings, d: DeviceId)
    requires d in devices
  {
    var b := devices[d];
    b.deviceID == d && b.endpointKey in sessions && d in sessions[b.endpointKey].devices && sessions[b.endpointKey].devices[d] == b
  }

  ghost predicate Listed(sessions: Sessions, devices: Bindings, k: EndpointKey, d: DeviceId)
    requires k in sessions && d in sessions[k].devices
  {
    d in devices && sessions[k].devices[d] == devices[d] && devices[d].endpointKey == k
  }

  /** Put in terms of counting: a bound device is listed by exactly one session, any other by none. */
  lemma ListedExactlyOnce(sessions: Sessions, devices: Bindings, d: DeviceId)
    requires Agree(sessions, devices)
    ensures var listing := set k | k in sessions && d in sessions[k].devices;
            listing == if d in devices then {devices[d].endpointKey} else {}
  {
    if d in devices {
      assert Indexed(sessions, devices, d);
    }
    forall k | k in sessions && d in sessions[k].devices ensures d in devices && k == devices[d].endpointKey {
      assert Listed(sessions, devices, k, d);
    }
  }

  function WithoutDevice(sessions: Sessions, k: EndpointKey, d: DeviceId): Sessions
    requires k in sessions
  {
    sessions[k := sessions[k].(devices := sessions[k].devices - {d})]
  }

  function WithDevice(sessions: Sessions, k: EndpointKey, b: DeviceBinding): Sessions
    requires k in sessions
  {
    sessions[k := sessions[k].(devices := sessions[k].devices[b.deviceID := b])]
  }

  /** The bindings left when session k goes. */
  function WithoutSession(devices: Bindings, sessions: Sessions, k: EndpointKey): Bindings
    requires k in sessions
  {
    map d | d in devices && !(d in sessions[k].devices && devices[d].endpointKey == k) :: devices[d]
  }

  lemma AgreeUnbind(sessions: Sessions, devices: Bindings, d: DeviceId)
    requires Agree(sessions, devices) && d in devices
    ensures devices[d].endpointKey in sessions
    ensures Agree(WithoutDevice(sessions, devices[d].endpointKey, d), devices - {d})
  {
    assert Indexed(sessions, devices, d);
    var k := devices[d].endpointKey;
    var sessions', devices' := WithoutDevice(sessions, k, d), devices - {d};
    forall x | x in devices' ensures Indexed(sessions', devices', x) {
      assert Indexed(sessions, devices, x);
    }
    forall j, x | j in sessions' && x in sessions'[j].devices ensures Listed(sessions', devices', j, x) {
      assert Listed(sessions, devices, j, x);
    }
  }

  lemma AgreeBind(sessions: Sessions, devices: Bindings, k: EndpointKey, b: DeviceBinding)
    requires Agree(sessions, devices) && k in sessions && b.deviceID !in devices && b.endpointKey == k
    ensures Agree(WithDevice(sessions, k, b), devices[b.deviceID := b])
  {
    var sessions', devices' := WithDevice(sessions, k, b), devices[b.deviceID := b];
    forall x | x in devices' ensures Indexed(sessions', devices', x) {
      assert x != b.deviceID ==> Indexed(sessions, devices, x);
    }
    forall j, x | j in sessions' && x in sessions'[j].devices ensures Listed(sessions', devices', j, x) {
      assert x in sessions[j].devices ==> Listed(sessions, devices, j, x);
    }
  }

  lemma AgreeSameDevices(sessions: Sessions, devices: Bindings, k: EndpointKey, s: Session)
    requires Agree(sessions, devices)
    requires s.devices == if k in sessions then sessions[k].devices else map[]
    ensures Agree(sessions[k := s], devices)
  {
    var sessions' := sessions[k := s];
    forall x | x in devices ensures Indexed(sessions', devices, x) {
      assert Indexed(sessions, devices, x);
    }
    forall j, x | j in sessions' && x in sessions'[j].devices ensures Listed(sessions', devices, j, x) {
      assert Listed(sessions, devices, j, x);
    }
  }

  lemma AgreeDropSession(sessions: Sessions, devices: Bindings, k: EndpointKey)
    requires Agree(sessions, devices) && k in sessions
    ensures Agree(sessions - {k}, WithoutSession(devices, sessions, k))
    ensures forall d :: d in WithoutSession(devices, sessions, k) <==> d in devices && devices[d].endpointKey != k
  {
    var sessions', devices' := sessions - {k}, WithoutSession(devices, sessions, k);
    forall x | x in devices ensures x in devices' <==> devices[x].endpointKey != k {
      assert Indexed(sessions, devices, x);
    }
    forall x | x in devices' ensures Indexed(sessions', devices', x) {
      assert Indexed(sessions, devices, x);
    }
    forall j, x | j in sessions' && x in sessions'[j].devices ensures Listed(sessions', devices', j, x) {
      assert Listed(sessions, devices, j, x);
    }
  }

  // ----- backoff and limit -----

  /** A session's backoff is what its connect attempts leave, and each attempt was allowed. */
  ghost predicate InStep(s: Session, h: seq<Attempt>, retryDelay: int) {
    s.backoff == AfterAttempts(h, retryDelay) && Allowed(h, retryDelay)
  }

  ghost predicate AllInStep(sessions: Sessions, history: History, retryDelay: int) {
    history.Keys == sessions.Keys && forall k :: k in sessions ==> InStep(sessions[k], history[k], retryDelay)
  }

  function Limit(maxConnections: int): nat { if maxConnections < 0 then 0 else maxConnections }

  // ----- the pool as a value -----

  datatype Config = Config(maxConnections: int, retryDelay: int, idleTimeout: int, maxTTL: int)

  /** `history` records the connect attempts on each present session. */
  datatype Pool = Pool(sessions: Sessions, devices: Bindings, closed: bool, nextSerial: nat, history: History)

  ghost predicate Ok(cfg: Config, p: Pool) {
    && Agree(p.sessions, p.devices)
    && AllInStep(p.sessions, p.history, cfg.retryDelay)
    && |p.sessions| <= Limit(cfg.maxConnections)
  }

  datatype Outcome =
    | Client                       // a connected client
    | ServiceStopped | PoolExhausted | ClientRejected | BackoffActive | ConnectFailed(e: ConnectError)
    | DeviceNotFound | Removed

  /** The device off the session that lists it, if that is the session of another endpoint. */
  function MovedOff(p: Pool, d: DeviceId, epKey: EndpointKey): Pool {
    if d in p.devices && p.devices[d].endpointKey != epKey && p.devices[d].endpointKey in p.sessions
    then p.(sessions := WithoutDevice(p.sessions, p.devices[d].endpointKey, d), devices := p.devices - {d})
    else if d in p.devices && p.devices[d].endpointKey != epKey then p.(devices := p.devices - {d})
    else p
  }

  /** The device listed on an existing session. */
  function BoundTo(p: Pool, d: DeviceId, epKey: EndpointKey): Pool
    requires epKey in p.sessions
  {
    if d in p.sessions[epKey].devices then p
    else
      var b := DeviceBinding(d, epKey, p.nextSerial);
      p.(sessions := WithDevice(p.sessions, epKey, b), devices := p.devices[d := b], nextSerial := p.nextSerial + 1)
  }

  predicate Attempts(s: Session, now: int) { !s.connected && CanAttempt(s.backoff, now) }

  function AfterAttempt(cfg: Config, s: Session, now: int, err: Option<ConnectError>): Session {
    s.(connected := err.None?, backoff := Recorded(s.backoff, now, err, cfg.retryDelay),
       lastUsed := if err.None? then now else s.lastUsed)
  }

  /** One connect attempt on a session, unless it is connected or in backoff. */
  function AfterConnect(cfg: Config, p: Pool, k: EndpointKey, now: int, err: Option<ConnectError>): Pool
    requires k in p.sessions
  {
    var s := p.sessions[k];
    if Attempts(s, now) then
      p.(sessions := p.sessions[k := AfterAttempt(cfg, s, now, err)],
         history := p.history[k := (if k in p.history then p.history[k] else []) + [Attempt(now, err)]])
    else p
  }

  function ConnectOutcome(s: Session, now: int, err: Option<ConnectError>): Outcome {
    if s.connected then Client
    else if !CanAttempt(s.backoff, now) then BackoffActive
    else if err.Some? then ConnectFailed(err.value) else Client
  }

  function NewSession(now: int): Session { Session(map[], false, FRESH, now, None, now) }

  function WithNewSession(p: Pool, k: EndpointKey, now: int): Pool {
    p.(sessions := p.sessions[k := NewSession(now)], history := p.history[k := []])
  }

  /** The session gone, and the bindings that belong to it. */
  function Dropped(p: Pool, k: EndpointKey): Pool
    requires k in p.sessions
  {
    p.(sessions := p.sessions - {k}, devices := WithoutSession(p.devices, p.sessions, k), history := p.history - {k})
  }

  /** Whether a request for the endpoint is served by a session, present or new. */
  predicate Creates(cfg: Config, p: Pool, epKey: EndpointKey, clientOk: bool) {
    epKey !in p.sessions && |p.sessions| < cfg.maxConnections && clientOk
  }

  /** GetClient. The parameters after the endpoint key stand for the clock, for whether a client can be
      set up for the device, and for the outcome of a connect if one is made. */
  function AfterGet(cfg: Config, p: Pool, d: DeviceId, epKey: EndpointKey, now: int, clientOk: bool, err: Option<ConnectError>): Pool {
    if p.closed then p
    else
      var q := MovedOff(p, d, epKey);
      if epKey in q.sessions then AfterConnect(cfg, BoundTo(q, d, epKey), epKey, now, err)
      else if Creates(cfg, q, epKey, clientOk) then
        AfterConnect(cfg, BoundTo(WithNewSession(q, epKey, now), d, epKey), epKey, now, err)
      else q
  }

  /** What GetClient answers, from the state before. */
  function GetOutcome(cfg: Config, p: Pool, epKey: EndpointKey, now: int, clientOk: bool, err: Option<ConnectError>): Outcome {
    if p.closed then ServiceStopped
    else if epKey in p.sessions then ConnectOutcome(p.sessions[epKey], now, err)
    else if |p.sessions| >= cfg.maxConnections then PoolExhausted
    else if !clientOk then ClientRejected
    else if err.Some? then ConnectFailed(err.value) else Client
  }

  function AfterRemove(p: Pool, d: DeviceId): Pool {
    if d !in p.devices then p
    else
      var k := p.devices[d].endpointKey;
      if k !in p.sessions then p.(devices := p.devices - {d})
      else
        var q := p.(sessions := WithoutDevice(p.sessions, k, d), devices := p.devices - {d});
        if |q.sessions[k].devices| == 0 then q.(sessions := q.sessions - {k}, history := q.history - {k}) else q
  }

  /** The session is idle or has outlived its time. */
  predicate Reapable(cfg: Config, s: Session, now: int) {
    !HasRecentActivity(s, cfg.idleTimeout, now) || Expired(s, cfg.maxTTL, now)
  }

  /** The last pass of reapIdleSessions: of the sessions picked earlier, those still present and still
      idle or expired are closed, and the bindings of their devices go with them. The clock tells
      when each session is looked at. */
  function AfterReap(cfg: Config, p: Pool, picked: seq<EndpointKey>, n: nat, clock: EndpointKey -> int): Pool
    requires n <= |picked|
  {
    if n == 0 then p
    else
      var q, k := AfterReap(cfg, p, picked, n - 1, clock), picked[n - 1];
      if k in q.sessions && Reapable(cfg, q.sessions[k], clock(k)) then Dropped(q, k) else q
  }

  function AfterHealthCheck(cfg: Config, p: Pool, k: EndpointKey, breakerOpen: bool, now: int, err: Option<ConnectError>): Pool {
    if k in p.sessions && !breakerOpen then AfterConnect(cfg, p, k, now, err) else p
  }

  /** A client's connection goes down or the client itself brings it up again, or the client is used. */
  function AfterClientChange(p: Pool, k: EndpointKey, up: bool, lastUsed: int, lastPublish: Option<int>): Pool {
    if k in p.sessions
    then p.(sessions := p.sessions[k := p.sessions[k].(connected := up, lastUsed := lastUsed, lastPublish := lastPublish)])
    else p
  }

  // ----- every operation keeps the indexes in agreement -----

  lemma MovedOffOk(cfg: Config, p: Pool, d: DeviceId, epKey: EndpointKey)
    requires Ok(cfg, p)
    ensures Ok(cfg, MovedOff(p, d, epKey)) && MovedOff(p, d, epKey).sessions.Keys == p.sessions.Keys
  {
    if d in p.devices && p.devices[d].endpointKey != epKey {
      AgreeUnbind(p.sessions, p.devices, d);
      SameBackoffs(cfg, p, p.devices[d].endpointKey, p.sessions[p.devices[d].endpointKey].devices - {d});
    }
  }

  /** Changing a session's device map leaves its backoff alone. */
  lemma SameBackoffs(cfg: Config, p: Pool, k: EndpointKey, list: Bindings)
    requires AllInStep(p.sessions, p.history, cfg.retryDelay) && k in p.sessions
    ensures AllInStep(p.sessions[k := p.sessions[k].(devices := list)], p.history, cfg.retryDelay)
    ensures |p.sessions[k := p.sessions[k].(devices := list)]| == |p.sessions|
    ensures p.sessions[k := p.sessions[k].(devices := list)].Keys == p.sessions.Keys
  {
    var after := p.sessions[k := p.sessions[k].(devices := list)];
    assert after.Keys == p.sessions.Keys;
    assert |after| == |after.Keys| && |p.sessions| == |p.sessions.Keys|;
    forall j | j in after ensures InStep(after[j], p.history[j], cfg.retryDelay) {
      assert InStep(p.sessions[j], p.history[j], cfg.retryDelay);
    }
  }

  lemma BoundToOk(cfg: Config, p: Pool, d: DeviceId, epKey: EndpointKey)
    requires Ok(cfg, p) && epKey in p.sessions && (d in p.devices ==> p.devices[d].endpointKey == epKey)
    ensures Ok(cfg, BoundTo(p, d, epKey)) && BoundTo(p, d, epKey).sessions.Keys == p.sessions.Keys
  {
    if d !in p.sessions[epKey].devices {
      assert d in p.devices ==> Indexed(p.sessions, p.devices, d);
      var b := DeviceBinding(d, epKey, p.nextSerial);
      AgreeBind(p.sessions, p.devices, epKey, b);
      SameBackoffs(cfg, p, epKey, p.sessions[epKey].devices[d := b]);
    }
  }

  lemma AfterConnectOk(cfg: Config, p: Pool, k: EndpointKey, now: int, err: Option<ConnectError>)
    requires Ok(cfg, p) && k in p.sessions
    ensures Ok(cfg, AfterConnect(cfg, p, k, now, err)) && AfterConnect(cfg, p, k, now, err).sessions.Keys == p.sessions.Keys
    ensures AfterConnect(cfg, p, k, now, err).devices == p.devices
  {
    if Attempts(p.sessions[k], now) {
      var q := AfterConnect(cfg, p, k, now, err);
      AttemptMeans(cfg, p.sessions[k], now, err);
      AttemptInStep(cfg, p, k, now, err);
      hide AfterAttempt, Agree, AllInStep;
      AgreeSameDevices(p.sessions, p.devices, k, q.sessions[k]);
      assert q.sessions.Keys == p.sessions.Keys;
      assert |q.sessions| == |q.sessions.Keys| && |p.sessions| == |p.sessions.Keys|;
    }
  }

  lemma AfterClientChangeOk(cfg: Config, p: Pool, k: EndpointKey, up: bool, lastUsed: int, lastPublish: Option<int>)
    requires Ok(cfg, p)
    ensures Ok(cfg, AfterClientChange(p, k, up, lastUsed, lastPublish))
  {
    if k in p.sessions {
      var after := AfterClientChange(p, k, up, lastUsed, lastPublish).sessions;
      AgreeSameDevices(p.sessions, p.devices, k, after[k]);
      assert after.Keys == p.sessions.Keys;
      assert |after| == |after.Keys| && |p.sessions| == |p.sessions.Keys|;
      forall j | j in after ensures InStep(after[j], p.history[j], cfg.retryDelay) {
        assert InStep(p.sessions[j], p.history[j], cfg.retryDelay);
      }
    }
  }

  lemma AttemptInStep(cfg: Config, p: Pool, k: EndpointKey, now: int, err: Option<ConnectError>)
    requires AllInStep(p.sessions, p.history, cfg.retryDelay) && k in p.sessions && Attempts(p.sessions[k], now)
    ensures var q := AfterConnect(cfg, p, k, now, err); AllInStep(q.sessions, q.history, cfg.retryDelay)
  {
    var q := AfterConnect(cfg, p, k, now, err);
    assert InStep(p.sessions[k], p.history[k], cfg.retryDelay);
    AllowedNext(p.history[k], Attempt(now, err), cfg.retryDelay);
    assert q.history.Keys == q.sessions.Keys;
    forall j | j in q.sessions ensures InStep(q.sessions[j], q.history[j], cfg.retryDelay) {
      assert InStep(p.sessions[j], p.history[j], cfg.retryDelay);
    }
  }

  lemma WithNewSessionOk(cfg: Config, p: Pool, k: EndpointKey, now: int)
    requires Ok(cfg, p) && k !in p.sessions && |p.sessions| < cfg.maxConnections
    ensures Ok(cfg, WithNewSession(p, k, now))
    ensures WithNewSession(p, k, now).sessions.Keys == p.sessions.Keys + {k} && WithNewSession(p, k, now).devices == p.devices
  {
    AgreeSameDevices(p.sessions, p.devices, k, NewSession(now));
    var q := WithNewSession(p, k, now);
    assert InStep(NewSession(now), [], cfg.retryDelay);
    forall j | j in q.sessions ensures InStep(q.sessions[j], q.history[j], cfg.retryDelay) {
      assert j != k ==> InStep(p.sessions[j], p.history[j], cfg.retryDelay);
    }
  }

  lemma FewerSessionsOk(cfg: Config, p: Pool, k: EndpointKey)
    requires AllInStep(p.sessions, p.history, cfg.retryDelay) && |p.sessions| <= Limit(cfg.maxConnections) && k in p.sessions
    ensures AllInStep(p.sessions - {k}, p.history - {k}, cfg.retryDelay) && |p.sessions - {k}| <= Limit(cfg.maxConnections)
  {
    var fewer := p.sessions - {k};
    assert fewer.Keys == p.sessions.Keys - {k};
    assert |fewer| == |fewer.Keys| && |p.sessions| == |p.sessions.Keys|;
    forall j | j in fewer ensures InStep(fewer[j], (p.history - {k})[j], cfg.retryDelay) {
      assert InStep(p.sessions[j], p.history[j], cfg.retryDelay);
    }
  }

  lemma DroppedOk(cfg: Config, p: Pool, k: EndpointKey)
    requires Ok(cfg, p) && k in p.sessions
    ensures Ok(cfg, Dropped(p, k))
  {
    AgreeDropSession(p.sessions, p.devices, k);
    FewerSessionsOk(cfg, p, k);
  }

  lemma AfterGetOk(cfg: Config, p: Pool, d: DeviceId, epKey: EndpointKey, now: int, clientOk: bool, err: Option<ConnectError>)
    requires Ok(cfg, p)
    ensures Ok(cfg, AfterGet(cfg, p, d, epKey, now, clientOk, err))
  {
    if !p.closed {
      var q := MovedOff(p, d, epKey);
      MovedOffOk(cfg, p, d, epKey);
      if epKey in q.sessions {
        BoundToOk(cfg, q, d, epKey);
        AfterConnectOk(cfg, BoundTo(q, d, epKey), epKey, now, err);
      } else if Creates(cfg, q, epKey, clientOk) {
        WithNewSessionOk(cfg, q, epKey, now);
        BoundToOk(cfg, WithNewSession(q, epKey, now), d, epKey);
        AfterConnectOk(cfg, BoundTo(WithNewSession(q, epKey, now), d, epKey), epKey, now, err);
      }
    }
  }

  lemma AfterRemoveOk(cfg: Config, p: Pool, d: DeviceId)
    requires Ok(cfg, p)
    ensures Ok(cfg, AfterRemove(p, d))
  {
    if d in p.devices {
      AgreeUnbind(p.sessions, p.devices, d);
      var k := p.devices[d].endpointKey;
      SameBackoffs(cfg, p, k, p.sessions[k].devices - {d});
      var q := p.(sessions := WithoutDevice(p.sessions, k, d), devices := p.devices - {d});
      if |q.sessions[k].devices| == 0 {
        EmptySessionGoes(cfg, q, k);
      }
    }
  }

  lemma EmptySessionGoes(cfg: Config, q: Pool, k: EndpointKey)
    requires Ok(cfg, q) && k in q.sessions && |q.sessions[k].devices| == 0
    ensures Ok(cfg, q.(sessions := q.sessions - {k}, history := q.history - {k}))
  {
    FewerSessionsOk(cfg, q, k);
    AgreeDropEmpty(q.sessions, q.devices, k);
  }

  lemma AgreeDropEmpty(sessions: Sessions, devices: Bindings, k: EndpointKey)
    requires Agree(sessions, devices) && k in sessions && |sessions[k].devices| == 0
    ensures Agree(sessions - {k}, devices)
  {
    forall x | x in devices ensures Indexed(sessions - {k}, devices, x) {
      assert Indexed(sessions, devices, x);
    }
    forall j, x | j in sessions - {k} && x in sessions[j].devices ensures Listed(sessions - {k}, devices, j, x) {
      assert Listed(sessions, devices, j, x);
    }
  }

  lemma {:induction false} AfterReapOk(cfg: Config, p: Pool, picked: seq<EndpointKey>, n: nat, clock: EndpointKey -> int)
    requires Ok(cfg, p) && n <= |picked|
    ensures Ok(cfg, AfterReap(cfg, p, picked, n, clock))
  {
    hide Ok, Dropped;
    if n > 0 {
      AfterReapOk(cfg, p, picked, n - 1, clock);
      var q := AfterReap(cfg, p, picked, n - 1, clock);
      if picked[n - 1] in q.sessions && Reapable(cfg, q.sessions[picked[n - 1]], clock(picked[n - 1])) {
        DroppedOk(cfg, q, picked[n - 1]);
      }
    }
  }

  // ----- what each operation does to the indexes -----

  /** The binding of x is the same before and after. */
  predicate SameBinding(p: Pool, q: Pool, x: DeviceId) {
    (x in p.devices <==> x in q.devices) && (x in p.devices ==> p.devices[x] == q.devices[x])
  }

  lemma MovedOffBinds(cfg: Config, p: Pool, d: DeviceId, epKey: EndpointKey, x: DeviceId)
    requires Ok(cfg, p)
    ensures var m := MovedOff(p, d, epKey);
            && Ok(cfg, m) && m.closed == p.closed && m.sessions.Keys == p.sessions.Keys && |m.sessions| == |p.sessions|
            && (d in m.devices ==> epKey in p.sessions && m.devices[d].endpointKey == epKey)
            && (x != d ==> SameBinding(p, m, x))
  {
    var m := MovedOff(p, d, epKey);
    MovedOffOk(cfg, p, d, epKey);
    assert |m.sessions| == |m.sessions.Keys| && |p.sessions| == |p.sessions.Keys|;
    MovedOffDevices(p, d, epKey, x);
    SessionPresent(cfg, p, d);
    hide Ok, MovedOff, SameBinding;
  }

  lemma MovedOffDevices(p: Pool, d: DeviceId, epKey: EndpointKey, x: DeviceId)
    ensures var m := MovedOff(p, d, epKey);
            && m.closed == p.closed
            && (d in m.devices ==> d in p.devices && p.devices[d].endpointKey == epKey && m.devices[d] == p.devices[d])
            && (x != d ==> SameBinding(p, m, x))
  {
  }

  lemma ServedBinds(cfg: Config, m: Pool, d: DeviceId, epKey: EndpointKey, now: int, err: Option<ConnectError>, x: DeviceId)
    requires Ok(cfg, m) && epKey in m.sessions && (d in m.devices ==> m.devices[d].endpointKey == epKey)
    ensures epKey in BoundTo(m, d, epKey).sessions
    ensures var q := AfterConnect(cfg, BoundTo(m, d, epKey), epKey, now, err);
            && q.sessions.Keys == m.sessions.Keys
            && d in q.devices && q.devices[d].endpointKey == epKey && (x != d ==> SameBinding(m, q, x))
  {
    BoundBinds(cfg, m, d, epKey, x);
    hide BoundTo, Ok;
    AfterConnectOk(cfg, BoundTo(m, d, epKey), epKey, now, err);
  }

  /** An open pool binds the device to the endpoint if a session for it is present or can be made, and
      leaves it unbound otherwise; no other device is affected, and only that session may appear. */
  lemma GetBinds(cfg: Config, p: Pool, d: DeviceId, epKey: EndpointKey, now: int, clientOk: bool, err: Option<ConnectError>, x: DeviceId)
    requires Ok(cfg, p) && !p.closed
    ensures var q := AfterGet(cfg, p, d, epKey, now, clientOk, err);
            && q.sessions.Keys == (if Creates(cfg, p, epKey, clientOk) then p.sessions.Keys + {epKey} else p.sessions.Keys)
            && (if epKey in q.sessions then d in q.devices && q.devices[d].endpointKey == epKey else d !in q.devices)
            && (x != d ==> SameBinding(p, q, x))
  {
    hide MovedOff, BoundTo, AfterConnect, WithNewSession, Ok;
    var m := MovedOff(p, d, epKey);
    MovedOffBinds(cfg, p, d, epKey, x);
    if epKey in m.sessions {
      ServedBinds(cfg, m, d, epKey, now, err, x);
    } else if Creates(cfg, m, epKey, clientOk) {
      WithNewSessionOk(cfg, m, epKey, now);
      ServedBinds(cfg, WithNewSession(m, epKey, now), d, epKey, now, err, x);
    }
  }

  lemma BoundBinds(cfg: Config, m: Pool, d: DeviceId, epKey: EndpointKey, x: DeviceId)
    requires Ok(cfg, m) && epKey in m.sessions && (d in m.devices ==> m.devices[d].endpointKey == epKey)
    ensures var q := BoundTo(m, d, epKey);
            && Ok(cfg, q) && q.sessions.Keys == m.sessions.Keys
            && d in q.devices && q.devices[d].endpointKey == epKey && (x != d ==> SameBinding(m, q, x))
  {
    BoundToOk(cfg, m, d, epKey);
    if d in m.sessions[epKey].devices {
      assert Listed(m.sessions, m.devices, epKey, d);
    }
  }

  /** Removing a device removes its binding only, and its session exactly if it was the last device there. */
  lemma RemoveRemoves(cfg: Config, p: Pool, d: DeviceId)
    requires Ok(cfg, p)
    ensures var q := AfterRemove(p, d);
            && q.devices == p.devices - {d}
            && (d in p.devices ==> p.devices[d].endpointKey in p.sessions)
            && (q.sessions.Keys ==
                if d in p.devices && p.sessions[p.devices[d].endpointKey].devices.Keys == {d}
                then p.sessions.Keys - {p.devices[d].endpointKey} else p.sessions.Keys)
  {
    if d in p.devices {
      assert Indexed(p.sessions, p.devices, d);
      var k := p.devices[d].endpointKey;
      hide Ok;
      LastOut(p.sessions[k].devices, d);
      KeysWithout(p.sessions, k, d);
      hide WithoutDevice;
    }
  }

  lemma KeysWithout(sessions: Sessions, k: EndpointKey, d: DeviceId)
    requires k in sessions
    ensures var after := WithoutDevice(sessions, k, d);
            && after.Keys == sessions.Keys && after[k].devices == sessions[k].devices - {d}
            && (after - {k}).Keys == sessions.Keys - {k}
  {
  }

  lemma LastOut(list: Bindings, d: DeviceId)
    requires d in list
    ensures |list - {d}| == 0 <==> list.Keys == {d}
  {
    assert (list - {d}).Keys == list.Keys - {d};
    assert |list - {d}| == |(list - {d}).Keys|;
  }

  lemma DropRemoves(cfg: Config, p: Pool, k: EndpointKey, x: DeviceId)
    requires Ok(cfg, p) && k in p.sessions
    ensures x in Dropped(p, k).devices <==> x in p.devices && p.devices[x].endpointKey != k
    ensures x in Dropped(p, k).devices ==> Dropped(p, k).devices[x] == p.devices[x]
    ensures Dropped(p, k).sessions.Keys == p.sessions.Keys - {k}
  {
    AgreeDropSession(p.sessions, p.devices, k);
  }

  lemma SessionPresent(cfg: Config, p: Pool, x: DeviceId)
    requires Ok(cfg, p)
    ensures x in p.devices ==> p.devices[x].endpointKey in p.sessions
  {
    assert x in p.devices ==> Indexed(p.sessions, p.devices, x);
  }

  /** Reaping removes exactly the picked sessions that are idle or expired, leaves the others as they are ... */
  lemma {:induction false} ReapSessions(cfg: Config, p: Pool, picked: seq<EndpointKey>, n: nat, clock: EndpointKey -> int, k: EndpointKey)
    requires n <= |picked|
    ensures var q := AfterReap(cfg, p, picked, n, clock);
            && (k in q.sessions <==> k in p.sessions && !(k in picked[..n] && Reapable(cfg, p.sessions[k], clock(k))))
            && (k in q.sessions ==> q.sessions[k] == p.sessions[k])
  {
    hide WithoutSession, Reapable;
    if n > 0 {
      ReapSessions(cfg, p, picked, n - 1, clock, k);
      assert picked[..n] == picked[..n - 1] + [picked[n - 1]];
    }
  }

  /** ... and with them exactly the bindings of their devices. */
  lemma {:induction false} ReapDevices(cfg: Config, p: Pool, picked: seq<EndpointKey>, n: nat, clock: EndpointKey -> int, x: DeviceId)
    requires Ok(cfg, p) && n <= |picked|
    ensures var q := AfterReap(cfg, p, picked, n, clock);
            && (x in q.devices <==> x in p.devices && p.devices[x].endpointKey in q.sessions)
            && (x in q.devices ==> q.devices[x] == p.devices[x])
  {
    hide Ok, Dropped;
    if n == 0 {
      SessionPresent(cfg, p, x);
    } else {
      var q := AfterReap(cfg, p, picked, n - 1, clock);
      ReapDevices(cfg, p, picked, n - 1, clock, x);
      AfterReapOk(cfg, p, picked, n - 1, clock);
      if picked[n - 1] in q.sessions && Reapable(cfg, q.sessions[picked[n - 1]], clock(picked[n - 1])) {
        DropRemoves(cfg, q, picked[n - 1], x);
      }
    }
  }

  // ----- any sequence of operations -----

  datatype Operation =
    | Get(d: DeviceId, epKey: EndpointKey, now: int, clientOk: bool, err: Option<ConnectError>)
    | Remove(d: DeviceId)
    | Reap(picked: seq<EndpointKey>, clock: EndpointKey -> int)
    | HealthCheck(k: EndpointKey, breakerOpen: bool, now: int, err: Option<ConnectError>)
    | ClientChange(k: EndpointKey, up: bool, lastUsed: int, lastPublish: Option<int>)
    | BeginClose
    | FinishClose

  const EMPTY := Pool(map[], map[], false, 0, map[])

  function After(cfg: Config, p: Pool, op: Operation): Pool {
    match op
    case Get(d, epKey, now, clientOk, err) => AfterGet(cfg, p, d, epKey, now, clientOk, err)
    case Remove(d) => AfterRemove(p, d)
    case Reap(picked, clock) => AfterReap(cfg, p, picked, |picked|, clock)
    case HealthCheck(k, breakerOpen, now, err) => AfterHealthCheck(cfg, p, k, breakerOpen, now, err)
    case ClientChange(k, up, lastUsed, lastPublish) => AfterClientChange(p, k, up, lastUsed, lastPublish)
    case BeginClose => p.(closed := true)
    case FinishClose => p.(sessions := map[], devices := map[], history := map[])
  }

  function AfterAll(cfg: Config, ops: seq<Operation>): Pool {
    if ops == [] then EMPTY else After(cfg, AfterAll(cfg, ops[..|ops| - 1]), ops[|ops| - 1])
  }

  lemma AfterOk(cfg: Config, p: Pool, op: Operation)
    requires Ok(cfg, p)
    ensures Ok(cfg, After(cfg, p, op))
  {
    hide AfterGet, AfterRemove, AfterReap, AfterConnect, AfterClientChange;
    match op {
      case Get(d, epKey, now, clientOk, err) => AfterGetOk(cfg, p, d, epKey, now, clientOk, err);
      case Remove(d) => AfterRemoveOk(cfg, p, d);
      case Reap(picked, clock) => AfterReapOk(cfg, p, picked, |picked|, clock);
      case HealthCheck(k, breakerOpen, now, err) =>
        if k in p.sessions && !breakerOpen {
          AfterConnectOk(cfg, p, k, now, err);
        }
      case ClientChange(k, up, lastUsed, lastPublish) => AfterClientChangeOk(cfg, p, k, up, lastUsed, lastPublish);
      case BeginClose =>
      case FinishClose =>
    }
  }

  /** After any sequence of operations the indexes agree, the backoffs are in step and the number of
      sessions is within the limit. */
  lemma {:induction false} AlwaysOk(cfg: Config, ops: seq<Operation>)
    ensures Ok(cfg, AfterAll(cfg, ops))
  {
    hide After;
    if ops != [] {
      AlwaysOk(cfg, ops[..|ops| - 1]);
      AfterOk(cfg, AfterAll(cfg, ops[..|ops| - 1]), ops[|ops| - 1]);
    }
  }

  /** Whoever makes them, the last n attempts on a session, if all failed, span at least the delays
      the backoff set between them. */
  lemma PoolAttemptsAreSpaced(cfg: Config, p: Pool, k: EndpointKey, n: nat)
    requires Ok(cfg, p) && k in p.history
    requires 1 <= n <= |p.history[k]|
    requires forall i :: |p.history[k]| - n <= i < |p.history[k]| ==> p.history[k][i].err.Some?
    ensures var h := p.history[k]; h[|h| - 1].now - h[|h| - n].now >= DelaysBetween(h, n, cfg.retryDelay)
  {
    assert InStep(p.sessions[k], p.history[k], cfg.retryDelay);
    FailuresAreSpaced(p.history[k], n, cfg.retryDelay);
  }

  /** How long a session that fails to connect is left alone, in numbers: after n failures in a row a request
      is answered that the backoff is active exactly until `Wait` after the last failure. */
  lemma PoolWaits(cfg: Config, p: Pool, k: EndpointKey, n: nat, now: int, clientOk: bool, err: Option<ConnectError>)
    requires Ok(cfg, p) && k in p.history && 0 < n <= |p.history[k]|
    requires var h := p.history[k]; n < |h| ==> h[|h| - n - 1].err.None?
    requires forall i :: |p.history[k]| - n <= i < |p.history[k]| ==> p.history[k][i].err.Some?
    requires p.history[k][|p.history[k]| - 1].err == Some(OtherFailure) ==> NoOverflow(cfg.retryDelay)
    requires !p.closed && k in p.sessions && !p.sessions[k].connected
    ensures var last := p.history[k][|p.history[k]| - 1];
            GetOutcome(cfg, p, k, now, clientOk, err) ==
            if now < last.now + Wait(n, last.err.value, cfg.retryDelay) then BackoffActive
            else if err.Some? then ConnectFailed(err.value) else Client
  {
    assert InStep(p.sessions[k], p.history[k], cfg.retryDelay);
    NextAttemptIs(p.history[k], n, cfg.retryDelay, now);
  }

  /** Moving a device around changes nothing about whether its new session can be connected. */
  lemma SameConnection(p: Pool, d: DeviceId, epKey: EndpointKey)
    ensures epKey in p.sessions <==> epKey in MovedOff(p, d, epKey).sessions
    ensures epKey in p.sessions ==>
              var s, moved, bound := p.sessions[epKey], MovedOff(p, d, epKey).sessions[epKey], BoundTo(p, d, epKey).sessions[epKey];
              moved == s && bound.connected == s.connected && bound.backoff == s.backoff
  {
  }

  /** The session was used, or had a subscription publish, less than the idle time ago, and it has no lifetime or
      has not outlived it. */
  predicate StaysAt(cfg: Config, s: Session, now: int) {
    && (s.lastUsed > now - cfg.idleTimeout || (s.lastPublish.Some? && s.lastPublish.value > now - cfg.idleTimeout))
    && (cfg.maxTTL <= 0 || s.createdAt >= now - cfg.maxTTL)
  }

  lemma ReapableMeans(cfg: Config, s: Session, now: int)
    ensures Reapable(cfg, s, now) <==> !StaysAt(cfg, s, now)
  {
  }

  /** What an attempt leaves behind in the session. */
  lemma AttemptMeans(cfg: Config, s: Session, now: int, err: Option<ConnectError>)
    ensures var after := AfterAttempt(cfg, s, now, err);
            && after.devices == s.devices && after.createdAt == s.createdAt && after.lastPublish == s.lastPublish
            && (err == None ==> after.connected && after.lastUsed == now && after.backoff == Backoff(0, None, None))
            && (err.Some? ==> !after.connected && after.lastUsed == s.lastUsed
                              && after.backoff.failures == s.backoff.failures + 1 && after.backoff.lastError == err)
  {
  }

  /** A health check attempts to connect exactly if the session is there and down, its breaker is not open and
      the backoff is over. */
  lemma HealthCheckMeans(cfg: Config, p: Pool, k: EndpointKey, breakerOpen: bool, now: int, err: Option<ConnectError>)
    requires Ok(cfg, p)
    ensures var q := AfterHealthCheck(cfg, p, k, breakerOpen, now, err);
            if && k in p.sessions && !breakerOpen && !p.sessions[k].connected
               && (p.sessions[k].backoff.nextAt == None || p.sessions[k].backoff.nextAt.value <= now)
            then k in q.history && k in p.history && q.history[k] == p.history[k] + [Attempt(now, err)]
            else q == p
  {
  }

  /** A request attempts to connect exactly if its session is new, or is down with the backoff over; the attempt is
      recorded at that time, and no other session's attempts change. */
  lemma GetAttempts(cfg: Config, p: Pool, d: DeviceId, epKey: EndpointKey, now: int, clientOk: bool, err: Option<ConnectError>)
    requires Ok(cfg, p)
    ensures var q := AfterGet(cfg, p, d, epKey, now, clientOk, err);
            if !p.closed && epKey !in p.sessions && |p.sessions| < cfg.maxConnections && clientOk
            then q.history == p.history[epKey := [Attempt(now, err)]]
            else if && !p.closed && epKey in p.sessions && !p.sessions[epKey].connected
                    && (p.sessions[epKey].backoff.nextAt == None || p.sessions[epKey].backoff.nextAt.value <= now)
            then epKey in p.history && q.history == p.history[epKey := p.history[epKey] + [Attempt(now, err)]]
            else q.history == p.history
  {
    hide Agree, AllInStep;
    if !p.closed {
      var m := MovedOff(p, d, epKey);
      MovedOffOk(cfg, p, d, epKey);
      MovedSame(p, d, epKey);
      HistoryKeys(cfg, p);
      assert |m.sessions| == |m.sessions.Keys| && |p.sessions| == |p.sessions.Keys|;
      hide MovedOff;
      if epKey in m.sessions {
        ServedAttempt(cfg, m, d, epKey, now, err);
      } else if Creates(cfg, m, epKey, clientOk) {
        ServedAttempt(cfg, WithNewSession(m, epKey, now), d, epKey, now, err);
        assert [] + [Attempt(now, err)] == [Attempt(now, err)];
        assert p.history[epKey := []][epKey := [Attempt(now, err)]] == p.history[epKey := [Attempt(now, err)]];
      }
    }
  }

  /** A new session counts as created and used when it is made; a present one keeps its times, except that a
      successful attempt counts as a use. */
  lemma GetTimes(cfg: Config, p: Pool, d: DeviceId, epKey: EndpointKey, now: int, clientOk: bool, err: Option<ConnectError>)
    requires Ok(cfg, p) && !p.closed
    ensures var q := AfterGet(cfg, p, d, epKey, now, clientOk, err);
            && (epKey !in p.sessions && epKey in q.sessions ==>
                  q.sessions[epKey].createdAt == now && q.sessions[epKey].lastUsed == now && q.sessions[epKey].lastPublish == None)
            && (epKey in p.sessions ==>
                  && epKey in q.sessions && q.sessions[epKey].createdAt == p.sessions[epKey].createdAt
                  && q.sessions[epKey].lastPublish == p.sessions[epKey].lastPublish
                  && (q.sessions[epKey].connected && !p.sessions[epKey].connected ==> q.sessions[epKey].lastUsed == now)
                  && (q.sessions[epKey].connected == p.sessions[epKey].connected ==>
                        q.sessions[epKey].lastUsed == p.sessions[epKey].lastUsed))
  {
    hide Agree, AllInStep;
    var m := MovedOff(p, d, epKey);
    MovedOffOk(cfg, p, d, epKey);
    MovedSame(p, d, epKey);
    hide MovedOff;
    if epKey in m.sessions {
      ServedTimes(cfg, m, d, epKey, now, err);
    } else if Creates(cfg, m, epKey, clientOk) {
      ServedTimes(cfg, WithNewSession(m, epKey, now), d, epKey, now, err);
    }
  }

  lemma ServedTimes(cfg: Config, m: Pool, d: DeviceId, epKey: EndpointKey, now: int, err: Option<ConnectError>)
    requires epKey in m.sessions
    ensures epKey in BoundTo(m, d, epKey).sessions
    ensures var s, q := m.sessions[epKey], AfterConnect(cfg, BoundTo(m, d, epKey), epKey, now, err);
            && epKey in q.sessions && q.sessions[epKey].createdAt == s.createdAt && q.sessions[epKey].lastPublish == s.lastPublish
            && (q.sessions[epKey].connected && !s.connected ==> q.sessions[epKey].lastUsed == now)
            && (q.sessions[epKey].connected == s.connected ==> q.sessions[epKey].lastUsed == s.lastUsed)
  {
    hide Recorded;
  }

  lemma HistoryKeys(cfg: Config, p: Pool)
    requires Ok(cfg, p)
    ensures p.history.Keys == p.sessions.Keys
  {
  }

  lemma MovedSame(p: Pool, d: DeviceId, epKey: EndpointKey)
    ensures var m := MovedOff(p, d, epKey);
            m.history == p.history && m.closed == p.closed && (epKey in p.sessions ==> epKey in m.sessions && m.sessions[epKey] == p.sessions[epKey])
  {
  }

  lemma ServedAttempt(cfg: Config, m: Pool, d: DeviceId, epKey: EndpointKey, now: int, err: Option<ConnectError>)
    requires epKey in m.sessions && epKey in m.history
    ensures epKey in BoundTo(m, d, epKey).sessions
    ensures AfterConnect(cfg, BoundTo(m, d, epKey), epKey, now, err).history ==
            if && !m.sessions[epKey].connected
               && (m.sessions[epKey].backoff.nextAt == None || m.sessions[epKey].backoff.nextAt.value <= now)
            then m.history[epKey := m.history[epKey] + [Attempt(now, err)]] else m.history
  {
    SameConnection(m, d, epKey);
    hide AfterAttempt;
  }

  /** Without activity in between, a session that could be reaped can still be reaped later. */
  lemma ReapableStays(cfg: Config, s: Session, now: int, later: int)
    requires Reapable(cfg, s, now) && now <= later
    ensures Reapable(cfg, s, later)
  {
  }

  // ----- the pool as an object -----

  class ConnectionPool {
    const cfg: Config
    var sessions: Sessions
    var devices: Bindings
    var closed: bool
    var nextSerial: nat
    ghost var history: History

    ghost function Value(): Pool
      reads this
    {
      Pool(sessions, devices, closed, nextSerial, history)
    }

    ghost predicate Valid()
      reads this
    {
      Ok(cfg, Value())
    }

    constructor (cfg: Config)
      ensures Valid() && Value() == EMPTY && this.cfg == cfg
    {
      this.cfg := cfg;
      sessions, devices, closed, nextSerial, history := map[], map[], false, 0, map[];
    }

    method Connect(k: EndpointKey, now: int, err: Option<ConnectError>) returns (r: Outcome)
      requires k in sessions
      modifies this`sessions, this`history
      ensures Value() == AfterConnect(cfg, old(Value()), k, now, err)
      ensures r == ConnectOutcome(old(sessions)[k], now, err)
      ensures k in sessions && (r == Client <==> sessions[k].connected)
    {
      var s := sessions[k];
      if s.connected {
        return Client;
      }
      if !CanAttempt(s.backoff, now) {
        return BackoffActive;
      }
      sessions := sessions[k := AfterAttempt(cfg, s, now, err)];
      history := history[k := (if k in history then history[k] else []) + [Attempt(now, err)]];
      r := if err.Some? then ConnectFailed(err.value) else Client;
    }

    method Bind(d: DeviceId, epKey: EndpointKey)
      requires epKey in sessions
      modifies this`sessions, this`devices, this`nextSerial
      ensures Value() == BoundTo(old(Value()), d, epKey) && epKey in sessions
    {
      if d !in sessions[epKey].devices {
        var binding := DeviceBinding(d, epKey, nextSerial);
        sessions := WithDevice(sessions, epKey, binding);
        devices := devices[d := binding];
        nextSerial := nextSerial + 1;
      }
    }

    method GetClient(d: DeviceId, epKey: EndpointKey, now: int, clientOk: bool, err: Option<ConnectError>) returns (r: Outcome)
      requires Valid()
      modifies this
      ensures Valid() && Value() == AfterGet(cfg, old(Value()), d, epKey, now, clientOk, err)
      ensures r == GetOutcome(cfg, old(Value()), epKey, now, clientOk, err)
      ensures r == ServiceStopped <==> old(closed)
      ensures r == PoolExhausted <==> !old(closed) && epKey !in old(sessions) && |old(sessions)| >= cfg.maxConnections
      ensures r == ClientRejected <==>
                !old(closed) && epKey !in old(sessions) && |old(sessions)| < cfg.maxConnections && !clientOk
      ensures r == BackoffActive <==>
                && !old(closed) && epKey in old(sessions) && !old(sessions)[epKey].connected
                && old(sessions)[epKey].backoff.nextAt.Some? && now < old(sessions)[epKey].backoff.nextAt.value
      ensures r.ConnectFailed? ==> err == Some(r.e)
      ensures epKey in old(sessions) && old(sessions)[epKey].connected && !old(closed) ==> r == Client
      ensures r == Client ==> epKey !in old(sessions) || !old(sessions)[epKey].connected ==> err == None
      ensures r == Client ==> epKey in sessions && sessions[epKey].connected
    {
      hide Agree, AllInStep, MovedOff, BoundTo, AfterConnect;
      AfterGetOk(cfg, Value(), d, epKey, now, clientOk, err);
      MovedOffOk(cfg, Value(), d, epKey);
      if closed {
        return ServiceStopped;
      }
      SameConnection(Value(), d, epKey);
      MoveOff(d, epKey);
      assert |sessions| == |sessions.Keys| && |old(sessions)| == |old(sessions).Keys|;
      if epKey in sessions {
        SameConnection(Value(), d, epKey);
        Bind(d, epKey);
        r := Connect(epKey, now, err);
      } else if |sessions| >= cfg.maxConnections {
        r := PoolExhausted;
      } else if !clientOk {
        r := ClientRejected;
      } else {
        sessions, history := sessions[epKey := NewSession(now)], history[epKey := []];
        SameConnection(Value(), d, epKey);
        Bind(d, epKey);
        r := Connect(epKey, now, err);
      }
    }

    method MoveOff(d: DeviceId, epKey: EndpointKey)
      modifies this`sessions, this`devices
      ensures Value() == MovedOff(old(Value()), d, epKey)
    {
      if d in devices && devices[d].endpointKey != epKey {
        if devices[d].endpointKey in sessions {
          sessions := WithoutDevice(sessions, devices[d].endpointKey, d);
        }
        devices := devices - {d};
      }
    }

    method RemoveClient(d: DeviceId) returns (r: Outcome)
      requires Valid()
      modifies this`sessions, this`devices, this`history
      ensures Valid() && Value() == AfterRemove(old(Value()), d)
      ensures r == if d in old(devices) then Removed else DeviceNotFound
    {
      hide Ok, WithoutDevice;
      AfterRemoveOk(cfg, Value(), d);
      if d !in devices {
        return DeviceNotFound;
      }
      var k := devices[d].endpointKey;
      if k !in sessions {
        devices := devices - {d};
        return Removed;
      }
      Detach(d, k);
      if |sessions[k].devices| == 0 {
        sessions, history := sessions - {k}, history - {k};
      }
      return Removed;
    }

    method Detach(d: DeviceId, k: EndpointKey)
      requires k in sessions
      modifies this`sessions, this`devices
      ensures k in sessions
      ensures Value() == old(Value()).(sessions := WithoutDevice(old(sessions), k, d), devices := old(devices) - {d})
    {
      sessions := WithoutDevice(sessions, k, d);
      devices := devices - {d};
    }

    method DropSession(k: EndpointKey)
      requires k in sessions
      modifies this`sessions, this`devices, this`history
      ensures Value() == Dropped(old(Value()), k)
    {
      devices := WithoutSession(devices, sessions, k);
      sessions, history := sessions - {k}, history - {k};
    }

    /** The first two passes: the sessions that are idle or expired when they are looked at. */
    method FindIdle(clock: EndpointKey -> int) returns (picked: seq<EndpointKey>)
      ensures forall k :: k in picked <==> k in sessions && Reapable(cfg, sessions[k], clock(k))
    {
      hide Reapable;
      picked := [];
      var todo := sessions.Keys;
      while todo != {}
        invariant todo <= sessions.Keys
        invariant forall k :: k in picked <==> k in sessions && k !in todo && Reapable(cfg, sessions[k], clock(k))
        decreases todo
      {
        var k :| k in todo;
        if Reapable(cfg, sessions[k], clock(k)) {
          picked := picked + [k];
        }
        todo := todo - {k};
      }
    }

    method ReapIdle(picked: seq<EndpointKey>, clock: EndpointKey -> int)
      requires Valid()
      modifies this`sessions, this`devices, this`history
      ensures Valid() && Value() == AfterReap(cfg, old(Value()), picked, |picked|, clock)
    {
      hide Ok, Dropped, Reapable;
      AfterReapOk(cfg, Value(), picked, |picked|, clock);
      for i := 0 to |picked|
        invariant Value() == AfterReap(cfg, old(Value()), picked, i, clock)
      {
        var k := picked[i];
        if k in sessions && Reapable(cfg, sessions[k], clock(k)) {
          DropSession(k);
        }
      }
    }

    /** reapIdleSessions without interference between its passes: exactly the sessions idle or expired at both
        looks go - with a clock that does not run back, those idle or expired at the first - with exactly
        their devices' bindings. */
    method ReapIdleSessions(first: EndpointKey -> int, second: EndpointKey -> int)
      requires Valid()
      modifies this`sessions, this`devices, this`history
      ensures Valid()
      ensures forall k :: k in sessions <==>
                k in old(sessions) && !(Reapable(cfg, old(sessions)[k], first(k)) && Reapable(cfg, old(sessions)[k], second(k)))
      ensures forall k :: k in old(sessions) && first(k) <= second(k) ==>
                (k in sessions <==> StaysAt(cfg, old(sessions)[k], first(k)))
      ensures forall k :: k in sessions ==> sessions[k] == old(sessions)[k]
      ensures forall d :: d in devices <==> d in old(devices) && old(devices)[d].endpointKey in sessions
      ensures forall d :: d in devices ==> devices[d] == old(devices)[d]
    {
      var picked := FindIdle(first);
      ghost var before := Value();
      ReapIdle(picked, second);
      hide Ok, Reapable, AfterReap;
      forall k
        ensures k in sessions <==>
                k in before.sessions && !(k in picked && Reapable(cfg, before.sessions[k], second(k)))
        ensures k in sessions ==> sessions[k] == before.sessions[k]
      {
        ReapSessions(cfg, before, picked, |picked|, second, k);
        assert picked[..|picked|] == picked;
      }
      forall k | k in before.sessions && first(k) <= second(k)
        ensures k in sessions <==> !Reapable(cfg, before.sessions[k], first(k))
      {
        if Reapable(cfg, before.sessions[k], first(k)) {
          ReapableStays(cfg, before.sessions[k], first(k), second(k));
        }
      }
      forall k | k in before.sessions && first(k) <= second(k)
        ensures k in sessions <==> StaysAt(cfg, before.sessions[k], first(k))
      {
        ReapableMeans(cfg, before.sessions[k], first(k));
      }
      forall d
        ensures d in devices <==> d in before.devices && before.devices[d].endpointKey in sessions
        ensures d in devices ==> devices[d] == before.devices[d]
      {
        ReapDevices(cfg, before, picked, |picked|, second, d);
      }
    }

    method CheckSessionHealth(k: EndpointKey, breakerOpen: bool, now: int, err: Option<ConnectError>)
      requires Valid()
      modifies this`sessions, this`history
      ensures Valid() && Value() == AfterHealthCheck(cfg, old(Value()), k, breakerOpen, now, err)
    {
      if k in sessions && !breakerOpen {
        AfterConnectOk(cfg, Value(), k, now, err);
        var r := Connect(k, now, err);
      }
    }

    method ClientChanged(k: EndpointKey, up: bool, lastUsed: int, lastPublish: Option<int>)
      requires Valid()
      modifies this`sessions
      ensures Valid() && Value() == AfterClientChange(old(Value()), k, up, lastUsed, lastPublish)
      ensures sessions.Keys == old(sessions).Keys && forall j :: j in sessions && j != k ==> sessions[j] == old(sessions)[j]
      ensures k in sessions ==>
                && sessions[k].connected == up && sessions[k].lastUsed == lastUsed && sessions[k].lastPublish == lastPublish
                && sessions[k].devices == old(sessions)[k].devices && sessions[k].backoff == old(sessions)[k].backoff
    {
      hide Ok;
      AfterClientChangeOk(cfg, Value(), k, up, lastUsed, lastPublish);
      if k in sessions {
        sessions := sessions[k := sessions[k].(connected := up, lastUsed := lastUsed, lastPublish := lastPublish)];
      }
    }

    /** Close: hand out no more clients, then, after the background work has stopped, forget everything. */
    method Close()
      requires Valid()
      modifies this
      ensures Valid() && Value() == After(cfg, After(cfg, old(Value()), BeginClose), FinishClose)
    {
      closed := true;
      sessions, devices, history := map[], map[], map[];
    }
  }
}
