/** Rotation of a database password between the versions of a secret: four steps, each of which can be
    repeated and can stop before or after its one effect. */
module Rotation {
  import opened Wrappers

  const CURRENT := "AWSCURRENT"
  const PENDING := "AWSPENDING"
  const PREVIOUS := "AWSPREVIOUS"

  type Secret = map<string, string>

  /** The text of a version: none yet, one that cannot be read as JSON or searched for fields, JSON
      without fields such as a list, or an object. */
  datatype Text = NoValue | BadText | NoFields | Fields(m: Secret)

  datatype Version = Version(stages: set<string>, text: Text)

  datatype Server = Server(host: string, port: string)

  /** The secret's versions with their stages, and the password of every account of every server. */
  datatype State = State(disabled: bool, versions: map<string, Version>, db: map<(Server, string), string>)

  datatype Error =
    | BadInput | NotEnabled | NoSuchVersion | NotStaged | BadStep
    | NotFound | BadJson | KeyMissing
    | UserMismatch | HostMismatch | NoLogin | BadRequest

  datatype Outcome = Done | Raised(e: Error) | Stopped

  /** What a call cannot control: the logins that get through, the random password, and whether it is
      stopped before or after its effect. */
  datatype Luck = Luck(pendingLogin: bool, currentLogin: bool, previousLogin: bool, password: string, stopBefore: bool,
          stopAfter: bool)

  // ----- Secrets

  predicate Usable(m: Secret)
  {
    && "engine" in m && (m["engine"] == "postgres" || m["engine"] == "aurora-postgresql")
    && "host" in m && "username" in m && "password" in m
  }

  function ServerOf(m: Secret): Server
    requires Usable(m)
  {
    Server(m["host"], if "port" in m then m["port"] else "5432")
  }

  function Account(m: Secret): (Server, string)
    requires Usable(m)
  {
    (ServerOf(m), m["username"])
  }

  /** The database takes the password of this secret. */
  predicate Accepts(db: map<(Server, string), string>, m: Secret)
    requires Usable(m)
  {
    Account(m) in db && db[Account(m)] == m["password"]
  }

  /** Every stage is attached to at most one version. */
  ghost predicate StagesUnique(versions: map<string, Version>)
  {
    forall a, b, stage | a in versions && b in versions && stage in versions[a].stages
      && stage in versions[b].stages :: a == b
  }

  ghost predicate Holds(versions: map<string, Version>, id: string, stage: string)
  {
    id in versions && stage in versions[id].stages
  }

  /** The version a stage is attached to. */
  ghost function Holder(versions: map<string, Version>, stage: string): (h: Option<string>)
    ensures h.Some? ==> Holds(versions, h.value, stage)
    ensures h.None? ==> forall id :: !Holds(versions, id, stage)
  {
    if id: string :| Holds(versions, id, stage) then Some(id) else None
  }

  lemma HolderIs(versions: map<string, Version>, id: string, stage: string)
    requires StagesUnique(versions) && Holds(versions, id, stage)
    ensures Holder(versions, stage) == Some(id)
  {
  }

  function CheckText(text: Text): Result<Secret, Error>
  {
    match text
    case NoValue => Err(NotFound)
    case BadText => Err(BadJson)
    case NoFields => Err(KeyMissing)
    case Fields(m) => if Usable(m) then Ok(m) else Err(KeyMissing)
  }

  function VersionSecret(versions: map<string, Version>, id: string, stage: string): (r: Result<Secret, Error>)
    ensures r.Ok? ==> Usable(r.value)
  {
    if id in versions && stage in versions[id].stages then CheckText(versions[id].text) else Err(NotFound)
  }

  ghost function StageSecret(versions: map<string, Version>, stage: string): (r: Result<Secret, Error>)
    ensures r.Ok? ==> Usable(r.value)
  {
    match Holder(versions, stage)
    case None => Err(NotFound)
    case Some(id) => VersionSecret(versions, id, stage)
  }

  // ----- The effects

  /** The version `token` gets its value and the pending stage. */
  function Put(versions: map<string, Version>, token: string, m: Secret): map<string, Version>
  {
    map id | id in versions.Keys + {token} ::
      if id == token then Version((if id in versions then versions[id].stages else {}) + {PENDING}, Fields(m))
      else Version(versions[id].stages - {PENDING}, versions[id].text)
  }

  /** Moving the current stage leaves the previous stage on the version it comes from. */
  function MoveCurrent(versions: map<string, Version>, from: string, to: string): map<string, Version>
  {
    map id | id in versions ::
      Version(if id == to then versions[id].stages - {PREVIOUS} + {CURRENT}
              else if id == from then versions[id].stages - {CURRENT} + {PREVIOUS}
              else versions[id].stages - {PREVIOUS},
              versions[id].text)
  }

  /** A new rotation adds a version without a value. */
  function Begun(versions: map<string, Version>, token: string): map<string, Version>
  {
    map id | id in versions.Keys + {token} ::
      if id == token then Version({PENDING}, NoValue) else Version(versions[id].stages - {PENDING}, versions[id].text)
  }

  // ----- What each step does

  ghost function AfterCreate(s: State, token: string, luck: Luck): (State, Outcome)
  {
    match StageSecret(s.versions, CURRENT)
    case Err(e) => (s, Raised(e))
    case Ok(current) =>
      match VersionSecret(s.versions, token, PENDING)
      case Ok(_) => (s, Done)
      case Err(NotFound) =>
        if luck.stopBefore then (s, Stopped)
        else (s.(versions := Put(s.versions, token, current["password" := luck.password])),
              if luck.stopAfter then Stopped else Done)
      case Err(e) => (s, Raised(e))
  }

  /** The password is set over a connection to the server of `via`. */
  function Altered(s: State, via: Secret, pending: Secret, luck: Luck): (State, Outcome)
    requires Usable(via) && Usable(pending)
  {
    if luck.stopBefore then (s, Stopped)
    else (s.(db := s.db[(ServerOf(via), pending["username"]) := pending["password"]]),
          if luck.stopAfter then Stopped else Done)
  }

  ghost function AfterSet(s: State, token: string, luck: Luck): (State, Outcome)
  {
    var previous, current, pending :=
      StageSecret(s.versions, PREVIOUS), StageSecret(s.versions, CURRENT), VersionSecret(s.versions, token, PENDING);
    if previous == Err(BadJson) then (s, Raised(BadJson))
    else if current.Err? then (s, Raised(current.error))
    else if pending.Err? then (s, Raised(pending.error))
    else Set(s, previous, current.value, pending.value, luck)
  }

  function Set(s: State, previous: Result<Secret, Error>, current: Secret, pending: Secret, luck: Luck)
    : (State, Outcome)
    requires (previous.Ok? ==> Usable(previous.value)) && Usable(current) && Usable(pending)
  {
    if luck.pendingLogin && Accepts(s.db, pending) then (s, Done)
    else if current["username"] != pending["username"] then (s, Raised(UserMismatch))
    else if current["host"] != pending["host"] then (s, Raised(HostMismatch))
    else if luck.currentLogin && Accepts(s.db, current) then Altered(s, current, pending, luck)
    else if previous.Err? then (s, Raised(NoLogin))
    else if previous.value["username"] != pending["username"] then (s, Raised(UserMismatch))
    else if previous.value["host"] != pending["host"] then (s, Raised(HostMismatch))
    else if luck.previousLogin && Accepts(s.db, previous.value) then Altered(s, previous.value, pending, luck)
    else (s, Raised(NoLogin))
  }

  ghost function AfterTest(s: State, token: string, luck: Luck): (State, Outcome)
  {
    match VersionSecret(s.versions, token, PENDING)
    case Err(e) => (s, Raised(e))
    case Ok(pending) =>
      if !(luck.pendingLogin && Accepts(s.db, pending)) then (s, Raised(NoLogin))
      else (s, if luck.stopBefore then Stopped else Done)
  }

  ghost function AfterFinish(s: State, token: string, luck: Luck): (State, Outcome)
  {
    match Holder(s.versions, CURRENT)
    case None => (s, Raised(BadRequest))
    case Some(id) =>
      if id == token then (s, Done)
      else if luck.stopBefore then (s, Stopped)
      else (s.(versions := MoveCurrent(s.versions, id, token)), if luck.stopAfter then Stopped else Done)
  }

  const STEPS := ["createSecret", "setSecret", "testSecret", "finishSecret"]

  ghost function AfterStep(s: State, token: string, step: string, luck: Luck): (State, Outcome)
  {
    if s.disabled then (s, Raised(NotEnabled))
    else if token !in s.versions then (s, Raised(NoSuchVersion))
    else if CURRENT in s.versions[token].stages then (s, Done)
    else if PENDING !in s.versions[token].stages then (s, Raised(NotStaged))
    else if step == STEPS[0] then AfterCreate(s, token, luck)
    else if step == STEPS[1] then AfterSet(s, token, luck)
    else if step == STEPS[2] then AfterTest(s, token, luck)
    else if step == STEPS[3] then AfterFinish(s, token, luck)
    else (s, Raised(BadStep))
  }

  predicate Printable(s: string) { s != "" && forall k :: 0 <= k < |s| ==> ' ' <= s[k] <= '~' }

  /** Printable text; the pattern's end also matches before a last line break. */
  predicate ValidInput(s: string)
  {
    Printable(s) || (s != "" && s[|s| - 1] == '\n' && Printable(s[..|s| - 1]))
  }

  function Input(event: map<string, string>, field: string): Result<string, Error>
  {
    if field in event && ValidInput(event[field]) then Ok(event[field]) else Err(BadInput)
  }

  ghost function AfterEvent(s: State, event: map<string, string>, luck: Luck): (State, Outcome)
  {
    if Input(event, "SecretId").Err? || Input(event, "ClientRequestToken").Err?
      || Input(event, "Step").Err? then (s, Raised(BadInput))
    else AfterStep(s, event["ClientRequestToken"], event["Step"], luck)
  }

  // ----- The handler

  /** The secret store and the database, as the handler changes them. */
  class World {
    var disabled: bool
    var versions: map<string, Version>
    var db: map<(Server, string), string>

    constructor (disabled: bool, versions: map<string, Version>, db: map<(Server, string), string>)
      ensures Now() == State(disabled, versions, db)
    {
      this.disabled, this.versions, this.db := disabled, versions, db;
    }

    ghost function Now(): State
      reads this
    {
      State(disabled, versions, db)
    }

    /** The store attaches every stage to one version at most. */
    ghost predicate Valid()
      reads this
    {
      StagesUnique(versions)
    }

    method LambdaHandler(event: map<string, string>, luck: Luck) returns (o: Outcome)
      requires Valid()
      modifies this
      ensures (Now(), o) == AfterEvent(old(Now()), event, luck)
    {
      var arn := Input(event, "SecretId");
      if arn.Err? { return Raised(arn.error); }
      var token := Input(event, "ClientRequestToken");
      if token.Err? { return Raised(token.error); }
      var step := Input(event, "Step");
      if step.Err? { return Raised(step.error); }
      if disabled { return Raised(NotEnabled); }
      if token.value !in versions { return Raised(NoSuchVersion); }
      if CURRENT in versions[token.value].stages {
        return Done;
      } else if PENDING !in versions[token.value].stages {
        return Raised(NotStaged);
      }
      if step.value == "createSecret" {
        o := CreateSecret(token.value, luck);
      } else if step.value == "setSecret" {
        o := SetSecret(token.value, luck);
      } else if step.value == "testSecret" {
        o := TestSecret(token.value, luck);
      } else if step.value == "finishSecret" {
        o := FinishSecret(token.value, luck);
      } else {
        o := Raised(BadStep);
      }
    }

    method CreateSecret(token: string, luck: Luck) returns (o: Outcome)
      requires Valid()
      modifies this`versions
      ensures (Now(), o) == AfterCreate(old(Now()), token, luck)
    {
      var current := GetSecretDict(CURRENT, None);
      if current.Err? { return Raised(current.error); }
      var pending := GetSecretDict(PENDING, Some(token));
      if pending.Ok? { return Done; }
      if pending.error != NotFound { return Raised(pending.error); }
      var fields := current.value["password" := luck.password];
      if luck.stopBefore { return Stopped; }
      versions := Put(versions, token, fields);
      return if luck.stopAfter then Stopped else Done;
    }

    method SetSecret(token: string, luck: Luck) returns (o: Outcome)
      requires Valid()
      modifies this`db
      ensures (Now(), o) == AfterSet(old(Now()), token, luck)
    {
      hide Usable, Account, ServerOf, Accepts, StagesUnique, StageSecret, VersionSecret, Set;
      var previous := GetSecretDict(PREVIOUS, None);
      if previous.Err? && previous.error == BadJson { return Raised(BadJson); }
      var current := GetSecretDict(CURRENT, None);
      if current.Err? { return Raised(current.error); }
      var pending := GetSecretDict(PENDING, Some(token));
      if pending.Err? { return Raised(pending.error); }
      o := SetPassword(previous, current.value, pending.value, luck);
    }

    /** The logins, the checks between them, and the change of the password. */
    method SetPassword(previous: Result<Secret, Error>, current: Secret, pending: Secret, luck: Luck)
      returns (o: Outcome)
      requires (previous.Ok? ==> Usable(previous.value)) && Usable(current) && Usable(pending)
      modifies this`db
      ensures (Now(), o) == Set(old(Now()), previous, current, pending, luck)
    {
      var conn := GetConnection(pending, luck.pendingLogin);
      if conn.Some? { return Done; }
      if current["username"] != pending["username"] { return Raised(UserMismatch); }
      if current["host"] != pending["host"] { return Raised(HostMismatch); }
      conn := GetConnection(current, luck.currentLogin);
      if conn.None? && previous.Ok? {
        conn := GetConnection(previous.value, luck.previousLogin);
        if previous.value["username"] != pending["username"] { return Raised(UserMismatch); }
        if previous.value["host"] != pending["host"] { return Raised(HostMismatch); }
      }
      if conn.None? { return Raised(NoLogin); }
      if luck.stopBefore { return Stopped; }
      db := db[(conn.value, pending["username"]) := pending["password"]];
      return if luck.stopAfter then Stopped else Done;
    }

    method TestSecret(token: string, luck: Luck) returns (o: Outcome)
      requires Valid()
      ensures (Now(), o) == AfterTest(old(Now()), token, luck)
    {
      var pending := GetSecretDict(PENDING, Some(token));
      if pending.Err? { return Raised(pending.error); }
      var conn := GetConnection(pending.value, luck.pendingLogin);
      if conn.Some? {
        return if luck.stopBefore then Stopped else Done;
      } else {
        return Raised(NoLogin);
      }
    }

    method FinishSecret(token: string, luck: Luck) returns (o: Outcome)
      requires Valid()
      modifies this`versions
      ensures (Now(), o) == AfterFinish(old(Now()), token, luck)
    {
      var currentVersion: Option<string> := None;
      var left := versions.Keys;
      while left != {}
        invariant left <= versions.Keys && currentVersion == None
        invariant forall id :: id in versions && id !in left ==> CURRENT !in versions[id].stages
        decreases |left|
      {
        var version :| version in left;
        left := left - {version};
        if CURRENT in versions[version].stages {
          HolderIs(versions, version, CURRENT);
          if version == token { return Done; }
          currentVersion := Some(version);
          break;
        }
      }
      if currentVersion.None? { return Raised(BadRequest); }
      if luck.stopBefore { return Stopped; }
      versions := MoveCurrent(versions, currentVersion.value, token);
      return if luck.stopAfter then Stopped else Done;
    }

    /** The secret of a stage, or of one version with that stage. */
    method GetSecretDict(stage: string, token: Option<string>) returns (r: Result<Secret, Error>)
      requires Valid()
      ensures r == if token.Some? then VersionSecret(versions, token.value, stage) else StageSecret(versions, stage)
    {
      if token.Some? {
        return VersionSecret(versions, token.value, stage);
      }
      var left := versions.Keys;
      while left != {}
        invariant left <= versions.Keys
        invariant forall id :: id in versions && id !in left ==> stage !in versions[id].stages
        decreases |left|
      {
        var version :| version in left;
        left := left - {version};
        if stage in versions[version].stages {
          HolderIs(versions, version, stage);
          return CheckText(versions[version].text);
        }
      }
      return Err(NotFound);
    }

    /** A connection is the server it leads to. */
    method GetConnection(m: Secret, getsThrough: bool) returns (conn: Option<Server>)
      requires Usable(m)
      ensures conn == if getsThrough && Accepts(db, m) then Some(ServerOf(m)) else None
    {
      if getsThrough && Account(m) in db && db[Account(m)] == m["password"] {
        return Some(ServerOf(m));
      }
      return None;
    }
  }

  // ----- Runs

  /** Rotations: the token of the last one begun, and how many of its steps have returned. */
  datatype Run = Run(s: State, token: Option<string>, done: nat)

  datatype Event = Begin(token: string) | Call(step: nat, luck: Luck)

  /** A rotation is begun by the store only when no other is in progress; a step is called when all
      steps before it have returned. */
  ghost predicate Allowed(r: Run, e: Event)
  {
    match e
    case Begin(token) =>
      && token !in r.s.versions
      && (Holder(r.s.versions, PENDING).None? || Holder(r.s.versions, PENDING) == Holder(r.s.versions, CURRENT))
    case Call(step, _) => r.token.Some? && step < |STEPS| && step <= r.done
  }

  ghost function Next(r: Run, e: Event): Run
    requires Allowed(r, e)
  {
    match e
    case Begin(token) => Run(r.s.(versions := Begun(r.s.versions, token)), Some(token), 0)
    case Call(step, luck) =>
      var (s, o) := AfterStep(r.s, r.token.value, STEPS[step], luck);
      Run(s, r.token, if o == Done && r.done <= step then step + 1 else r.done)
  }

  ghost predicate AllAllowed(r: Run, events: seq<Event>)
    decreases |events|
  {
    events == [] || (Allowed(r, events[0]) && AllAllowed(Next(r, events[0]), events[1..]))
  }

  ghost function After(r: Run, events: seq<Event>): Run
    requires AllAllowed(r, events)
    decreases |events|
  {
    if events == [] then r else After(Next(r, events[0]), events[1..])
  }

  /** One version is current, its secret is usable, and its account exists. */
  ghost predicate HasCurrent(s: State, id: string)
  {
    && StagesUnique(s.versions) && Holds(s.versions, id, CURRENT)
    && s.versions[id].text.Fields? && Usable(s.versions[id].text.m) && Account(s.versions[id].text.m) in s.db
  }

  /** Between rotations the database has the current password. */
  ghost predicate Settled(s: State, id: string)
    requires HasCurrent(s, id)
  {
    Accepts(s.db, s.versions[id].text.m)
  }

  /** While `token` is pending: before it has a value the database has the current password; then it
      has the current or the pending one, which is all that differs, and once the test has passed it
      has the pending one. */
  ghost predicate Midway(s: State, id: string, token: string, done: nat)
    requires HasCurrent(s, id)
  {
    && token in s.versions
    && var m := s.versions[id].text.m;
       match s.versions[token].text
       case NoValue => done == 0 && Accepts(s.db, m)
       case BadText => false
       case NoFields => false
       case Fields(p) =>
         && "password" in p && p == m["password" := p["password"]]
         && (Accepts(s.db, m) || Accepts(s.db, p))
         && (done >= 3 ==> Accepts(s.db, p))
  }

  ghost predicate Safe(r: Run, id: string)
  {
    && HasCurrent(r.s, id)
    && (r.token.Some? ==> Holds(r.s.versions, r.token.value, PENDING))
    && (if Holder(r.s.versions, PENDING).None? || Holder(r.s.versions, PENDING) == Some(id) then Settled(r.s, id)
        else r.token == Holder(r.s.versions, PENDING) && Midway(r.s, id, r.token.value, r.done))
  }

  // ----- Every run is safe

  lemma FieldsKept(m: Secret, password: string)
    requires Usable(m)
    ensures var p := m["password" := password];
            && Usable(p) && Account(p) == Account(m)
            && p == m["password" := p["password"]]
  {
  }

  lemma BeginIsSafe(r: Run, token: string, id: string)
    requires Safe(r, id) && Allowed(r, Begin(token))
    ensures Safe(Next(r, Begin(token)), id)
  {
    var n := Next(r, Begin(token));
    HolderIs(r.s.versions, id, CURRENT);
    assert Holds(n.s.versions, id, CURRENT);
    HolderIs(n.s.versions, token, PENDING);
  }

  lemma CreateIsSafe(r: Run, luck: Luck, id: string)
    requires Safe(r, id) && r.token.Some? && r.token != Some(id) && !Holds(r.s.versions, r.token.value, CURRENT)
    ensures var (s, o) := AfterCreate(r.s, r.token.value, luck);
            Safe(Run(s, r.token, r.done), id)
              && (o == Done ==> Safe(Run(s, r.token, if r.done == 0 then 1 else r.done), id))
  {
    var token := r.token.value;
    HolderIs(r.s.versions, id, CURRENT);
    HolderIs(r.s.versions, token, PENDING);
    var m := r.s.versions[id].text.m;
    FieldsKept(m, luck.password);
    var s := AfterCreate(r.s, token, luck).0;
    assert Holds(s.versions, id, CURRENT);
    HolderIs(s.versions, token, PENDING);
  }

  /** setSecret changes no more than one account's password, to the pending one. */
  lemma SetChanges(s: State, token: string, luck: Luck)
    ensures var s' := AfterSet(s, token, luck).0;
            s' == s ||
            (VersionSecret(s.versions, token, PENDING).Ok? &&
             var p := VersionSecret(s.versions, token, PENDING).value;
             exists server :: s' == s.(db := s.db[(server, p["username"]) := p["password"]]))
  {
  }

  lemma SetIsSafe(r: Run, luck: Luck, id: string, done: nat)
    requires Safe(r, id) && r.token.Some? && !Holds(r.s.versions, r.token.value, CURRENT)
    requires r.done <= done <= 2 || done == r.done
    requires r.s.versions[r.token.value].text.NoValue? ==> done == 0
    ensures Safe(Run(AfterSet(r.s, r.token.value, luck).0, r.token, done), id)
  {
    SetChanges(r.s, r.token.value, luck);
    hide AfterSet;
    HolderIs(r.s.versions, id, CURRENT);
    HolderIs(r.s.versions, r.token.value, PENDING);
    FieldsKept(r.s.versions[id].text.m, luck.password);
  }

  lemma TestIsSafe(r: Run, luck: Luck, id: string, done: nat)
    requires Safe(r, id) && r.token.Some? && !Holds(r.s.versions, r.token.value, CURRENT)
    requires done == if AfterTest(r.s, r.token.value, luck).1 == Done && r.done <= 2 then 3 else r.done
    ensures Safe(Run(AfterTest(r.s, r.token.value, luck).0, r.token, done), id)
  {
    HolderIs(r.s.versions, id, CURRENT);
    HolderIs(r.s.versions, r.token.value, PENDING);
  }

  /** Whenever the last step moves the current stage, the database already has the password of the
      version it moves to. */
  lemma FinishMovesOnlyWhenSet(r: Run, luck: Luck, id: string)
    requires Safe(r, id) && Allowed(r, Call(3, luck))
    ensures var n := Next(r, Call(3, luck));
            n.s.versions != r.s.versions ==>
              && n.s.db == r.s.db && n.s.versions == MoveCurrent(r.s.versions, id, r.token.value)
              && Holder(n.s.versions, CURRENT) == r.token && HasCurrent(n.s, r.token.value)
              && Accepts(r.s.db, r.s.versions[r.token.value].text.m)
  {
    var token := r.token.value;
    HolderIs(r.s.versions, id, CURRENT);
    HolderIs(r.s.versions, token, PENDING);
    var n := Next(r, Call(3, luck));
    if n.s.versions != r.s.versions {
      assert !Holds(r.s.versions, token, CURRENT);
      FieldsKept(r.s.versions[id].text.m, "");
      MovedStages(r.s.versions, id, token);
      HolderIs(n.s.versions, token, CURRENT);
    }
  }

  lemma MovedStages(versions: map<string, Version>, from: string, to: string)
    requires StagesUnique(versions) && Holds(versions, from, CURRENT) && Holds(versions, to, PENDING) && from != to
    ensures var moved := MoveCurrent(versions, from, to);
            StagesUnique(moved) && Holds(moved, to, CURRENT) && Holds(moved, to, PENDING)
              && Holds(moved, from, PREVIOUS)
  {
  }

  lemma FinishIsSafe(r: Run, luck: Luck, id: string) returns (id': string)
    requires Safe(r, id) && Allowed(r, Call(3, luck))
    ensures Safe(Next(r, Call(3, luck)), id')
  {
    var n := Next(r, Call(3, luck));
    if n.s.versions == r.s.versions {
      id' := id;
      HolderIs(r.s.versions, id, CURRENT);
      HolderIs(r.s.versions, r.token.value, PENDING);
    } else {
      id' := r.token.value;
      FinishMovesOnlyWhenSet(r, luck, id);
      HolderIs(r.s.versions, r.token.value, PENDING);
      MovedStages(r.s.versions, id, id');
      HolderIs(n.s.versions, id', PENDING);
    }
  }

  /** Once a version is current, every further step leaves everything as it is. */
  lemma FinishedStepsChangeNothing(s: State, token: string, step: string, luck: Luck)
    requires Holds(s.versions, token, CURRENT)
    ensures AfterStep(s, token, step, luck).0 == s
    ensures AfterStep(s, token, step, luck).1 == if s.disabled then Raised(NotEnabled) else Done
  {
  }

  lemma NextIsSafe(r: Run, e: Event, id: string) returns (id': string)
    requires Safe(r, id) && Allowed(r, e)
    ensures Safe(Next(r, e), id')
  {
    hide AfterCreate, AfterSet, AfterTest, AfterFinish;
    id' := id;
    match e {
      case Begin(token) => BeginIsSafe(r, token, id);
      case Call(step, luck) =>
        if step == 3 {
          id' := FinishIsSafe(r, luck, id);
        } else {
          EarlierStepIsSafe(r, step, luck, id);
        }
    }
  }

  lemma EarlierStepIsSafe(r: Run, step: nat, luck: Luck, id: string)
    requires Safe(r, id) && Allowed(r, Call(step, luck)) && step < 3
    ensures Safe(Next(r, Call(step, luck)), id)
  {
    hide AfterCreate, AfterSet, AfterTest, AfterFinish;
    var token := r.token.value;
    HolderIs(r.s.versions, id, CURRENT);
    HolderIs(r.s.versions, token, PENDING);
    if r.s.disabled {
    } else if Holds(r.s.versions, token, CURRENT) {
      FinishedStepsChangeNothing(r.s, token, STEPS[step], luck);
    } else if step == 0 {
      CreateIsSafe(r, luck, id);
    } else if step == 1 {
      var n := Next(r, Call(1, luck));
      SetNeedsValue(r.s, token, luck);
      SetIsSafe(r, luck, id, n.done);
    } else {
      var n := Next(r, Call(2, luck));
      TestIsSafe(r, luck, id, n.done);
    }
  }

  lemma SetNeedsValue(s: State, token: string, luck: Luck)
    requires token in s.versions
    ensures s.versions[token].text.NoValue? ==> AfterSet(s, token, luck).1 != Done
  {
  }

  /** Every run of rotations stays safe. */
  lemma {:induction false} RunsAreSafe(r: Run, events: seq<Event>, id: string) returns (id': string)
    requires Safe(r, id) && AllAllowed(r, events)
    ensures Safe(After(r, events), id')
    decreases |events|
  {
    hide Safe, Next, Allowed;
    id' := id;
    if events != [] {
      id' := NextIsSafe(r, events[0], id);
      id' := RunsAreSafe(Next(r, events[0]), events[1..], id');
    }
  }

  /** Exactly one version is current, and the database takes its password or the pending one. */
  ghost predicate CanLogIn(s: State, id: string)
  {
    && Holds(s.versions, id, CURRENT) && (forall other :: Holds(s.versions, other, CURRENT) ==> other == id)
    && s.versions[id].text.Fields? && Usable(s.versions[id].text.m)
    && (Accepts(s.db, s.versions[id].text.m) ||
        exists token :: Holds(s.versions, token, PENDING) && s.versions[token].text.Fields?
          && Usable(s.versions[token].text.m) &&
                        Accepts(s.db, s.versions[token].text.m))
  }

  /** From any state between rotations, whatever is stopped or repeated, the password in the database
      is always known to the store. */
  lemma PasswordIsNeverLost(s: State, id: string, events: seq<Event>) returns (id': string)
    requires HasCurrent(s, id) && Settled(s, id)
    requires forall other :: Holds(s.versions, other, PENDING) ==> other == id
    requires AllAllowed(Run(s, None, 0), events)
    ensures CanLogIn(After(Run(s, None, 0), events).s, id')
  {
    hide Next, Allowed;
    id' := RunsAreSafe(Run(s, None, 0), events, id);
    var r := After(Run(s, None, 0), events);
    if Holder(r.s.versions, PENDING).Some? && Holder(r.s.versions, PENDING) != Some(id') {
      FieldsKept(r.s.versions[id'].text.m, "");
      assert Holds(r.s.versions, r.token.value, PENDING);
    }
  }

  // ----- Steps done again, and rotations resumed

  /** A second createSecret keeps the first pending password, which is all that differs from the
      current secret. */
  lemma CreateKeepsFirst(s: State, id: string, token: string, first: Luck, second: Luck)
    requires HasCurrent(s, id) && token in s.versions && token != id && PENDING in s.versions[token].stages
    ensures var s1 := AfterCreate(s, token, first).0;
            s1 != s ==>
              && AfterCreate(s1, token, second) == (s1, Done)
              && s1.versions[token].text == Fields(s.versions[id].text.m["password" := first.password])
              && s1.db == s.db
  {
    HolderIs(s.versions, id, CURRENT);
    var s1 := AfterCreate(s, token, first).0;
    FieldsKept(s.versions[id].text.m, first.password);
    if s1 != s {
      assert Holds(s1.versions, id, CURRENT);
      HolderIs(s1.versions, id, CURRENT);
    }
  }

  /** A version is pending with the current secret's fields but for the password. */
  ghost predicate PendingOf(s: State, id: string, token: string)
    requires HasCurrent(s, id)
  {
    && Holds(s.versions, token, PENDING) && s.versions[token].text.Fields?
    && var p := s.versions[token].text.m; "password" in p && p == s.versions[id].text.m["password" := p["password"]]
  }

  predicate Honest(luck: Luck)
  {
    luck.pendingLogin && luck.currentLogin && luck.previousLogin && !luck.stopBefore && !luck.stopAfter
  }

  /** With working logins, setSecret returns exactly when the database has the pending, current or
      previous password of the same user and host; it then has the pending one, unless the login was
      with a previous secret of another port: that server is changed instead. */
  lemma SetSecretReachesPending(s: State, id: string, token: string, luck: Luck)
    requires HasCurrent(s, id) && PendingOf(s, id, token) && Honest(luck)
    requires StageSecret(s.versions, PREVIOUS) != Err(BadJson)
    ensures var m, p, previous := s.versions[id].text.m, s.versions[token].text.m, StageSecret(s.versions, PREVIOUS);
            var (s', o) := AfterSet(s, token, luck);
            var known := Accepts(s.db, p) || Accepts(s.db, m);
            && (o == Done <==>
                  known
                    || (previous.Ok? && previous.value["username"] == m["username"]
                      && previous.value["host"] == m["host"] && Accepts(s.db, previous.value)))
            && (o == Done ==> (Accepts(s'.db, p) <==> known || ServerOf(previous.value).port == ServerOf(p).port))
            && (o != Done ==> s' == s)
  {
    HolderIs(s.versions, id, CURRENT);
    FieldsKept(s.versions[id].text.m, luck.password);
  }

  /** Done again after it has set the password, setSecret leaves the database with it, and changes
      nothing when its first login gets through. */
  lemma SetAgainKeeps(s: State, id: string, token: string, luck: Luck)
    requires HasCurrent(s, id) && PendingOf(s, id, token) && Accepts(s.db, s.versions[token].text.m)
    ensures var s' := AfterSet(s, token, luck).0;
            s'.versions == s.versions && Accepts(s'.db, s.versions[token].text.m) && (luck.pendingLogin ==> s' == s)
  {
    HolderIs(s.versions, id, CURRENT);
    FieldsKept(s.versions[id].text.m, luck.password);
  }

  /** The previous secret names the same host with another port, and only its password works. */
  lemma PreviousPortMisleads(luck: Luck)
    requires Honest(luck)
    ensures var base := map["engine" := "postgres", "host" := "h", "username" := "u"];
            var versions := map[
              "a" := Version({PREVIOUS}, Fields(base["password" := "x"]["port" := "1"])),
              "b" := Version({CURRENT}, Fields(base["password" := "y"]["port" := "2"])),
              "c" := Version({PENDING}, Fields(base["password" := "z"]["port" := "2"]))];
            var db := map[(Server("h", "1"), "u") := "x", (Server("h", "2"), "u") := "w"];
            AfterSet(State(false, versions, db), "c", luck) ==
            (State(false, versions, db[(Server("h", "1"), "u") := "z"]), Done)
  {
    var base := map["engine" := "postgres", "host" := "h", "username" := "u"];
    var x, y, z := base["password" := "x"]["port" := "1"], base["password" := "y"]["port" := "2"],
      base["password" := "z"]["port" := "2"];
    var versions := map["a" := Version({PREVIOUS}, Fields(x)),
                        "b" := Version({CURRENT}, Fields(y)),
                        "c" := Version({PENDING}, Fields(z))];
    assert Usable(x) && Usable(y) && Usable(z);
    assert Account(x) == (Server("h", "1"), "u") && Account(y) == Account(z) == (Server("h", "2"), "u");
    HolderIs(versions, "a", PREVIOUS);
    HolderIs(versions, "b", CURRENT);
    hide Usable, Account, Holder;
  }

  // ----- Runs that end, and runs that cannot

  /** Once a rotation is finished, calling its steps again, in any order and number, changes nothing. */
  lemma {:induction false} FinishedRotationIsFinal(r: Run, events: seq<Event>)
    requires r.token.Some? && Holds(r.s.versions, r.token.value, CURRENT)
    requires AllAllowed(r, events) && forall i :: 0 <= i < |events| ==> events[i].Call?
    ensures After(r, events).s == r.s
    decreases |events|
  {
    hide AfterCreate, AfterSet, AfterTest, AfterFinish;
    if events != [] {
      var e := events[0];
      FinishedStepsChangeNothing(r.s, r.token.value, STEPS[e.step], e.luck);
      FinishedRotationIsFinal(Next(r, e), events[1..]);
    }
  }

  /** A previous secret that is no JSON stops every setSecret. */
  lemma BadPreviousBlocks(s: State, token: string, luck: Luck)
    requires StageSecret(s.versions, PREVIOUS) == Err(BadJson)
    ensures AfterSet(s, token, luck) == (s, Raised(BadJson))
  {
  }

  /** A rotation under way that cannot go on: rotation is switched off, or the previous secret is no
      JSON and the pending password is not set. */
  ghost predicate Stuck(r: Run, id: string)
  {
    && Safe(r, id) && r.token.Some? && r.token != Some(id)
    && (r.s.disabled ||
        (StageSecret(r.s.versions, PREVIOUS) == Err(BadJson) && (r.done <= 1 || (r.done == 2 && !HasPassword(r, id)))))
  }

  lemma BadPreviousAfterPut(versions: map<string, Version>, token: string, m: Secret)
    requires StagesUnique(versions) && token in versions && !versions[token].text.BadText?
    requires StageSecret(versions, PREVIOUS) == Err(BadJson)
    ensures StageSecret(Put(versions, token, m), PREVIOUS) == Err(BadJson)
  {
    var put := Put(versions, token, m);
    var id := Holder(versions, PREVIOUS).value;
    assert forall other :: Holds(put, other, PREVIOUS) <==> Holds(versions, other, PREVIOUS);
    assert Holds(put, id, PREVIOUS);
    HolderIs(put, id, PREVIOUS);
  }

  lemma StuckStays(r: Run, e: Event, id: string)
    requires Stuck(r, id) && Allowed(r, e)
    ensures Stuck(Next(r, e), id) && Next(r, e).token == r.token
  {
    TokenHolds(r, id);
    HolderIs(r.s.versions, r.token.value, PENDING);
    HolderIs(r.s.versions, id, CURRENT);
    assert e.Call? && e.step <= r.done;
    if r.s.disabled {
      hide AfterCreate, AfterSet, AfterTest, AfterFinish;
    } else {
      if r.done == 2 { StuckTestStays(r, e.step, e.luck, id); } else { StuckEarlyStays(r, e.step, e.luck, id); }
    }
  }

  lemma StuckEarlyStays(r: Run, step: nat, luck: Luck, id: string)
    requires Stuck(r, id) && !r.s.disabled && r.done <= 1 && Allowed(r, Call(step, luck))
    ensures Stuck(Next(r, Call(step, luck)), id) && Next(r, Call(step, luck)).token == r.token
  {
    TokenHolds(r, id);
    HolderIs(r.s.versions, id, CURRENT);
    EarlierStepIsSafe(r, step, luck, id);
    hide Safe, Midway, HasPassword;
    if step == 0 {
      BadPreviousAfterPut(r.s.versions, r.token.value, r.s.versions[id].text.m["password" := luck.password]);
    } else {
      BadPreviousBlocks(r.s, r.token.value, luck);
    }
  }

  lemma StuckTestStays(r: Run, step: nat, luck: Luck, id: string)
    requires Stuck(r, id) && !r.s.disabled && r.done == 2 && Allowed(r, Call(step, luck))
    ensures Stuck(Next(r, Call(step, luck)), id) && Next(r, Call(step, luck)).token == r.token
  {
    TokenHolds(r, id);
    EarlierStepIsSafe(r, step, luck, id);
    HasValueMidway(r, id);
    BadPreviousBlocks(r.s, r.token.value, luck);
    hide Safe, Midway, AfterSet, StageSecret;
  }

  /** Once the first step has returned, the pending version has its value. */
  lemma HasValueMidway(r: Run, id: string)
    requires Safe(r, id) && r.token.Some? && r.done >= 1
    ensures HasValue(r, id)
    ensures r.token != Some(id) ==>
              VersionSecret(r.s.versions, r.token.value, PENDING) == Ok(r.s.versions[r.token.value].text.m)
    ensures StageSecret(r.s.versions, CURRENT) == Ok(r.s.versions[id].text.m)
  {
    TokenHolds(r, id);
    HolderIs(r.s.versions, id, CURRENT);
    FieldsKept(r.s.versions[id].text.m, "");
  }

  /** Such a rotation never finishes, and no other can be begun: whatever is called, the current version
      stays the one it was. */
  lemma {:induction false} BadPreviousBlocksForGood(r: Run, events: seq<Event>, id: string)
    requires Stuck(r, id) && AllAllowed(r, events)
    ensures After(r, events).token == r.token && Holds(After(r, events).s.versions, id, CURRENT)
    ensures !Holds(After(r, events).s.versions, r.token.value, CURRENT)
    decreases |events|
  {
    if events == [] {
      TokenHolds(r, id);
    } else {
      hide Stuck, Next, Allowed;
      StuckStays(r, events[0], id);
      BadPreviousBlocksForGood(Next(r, events[0]), events[1..], id);
    }
  }

  // ----- Resuming a rotation

  ghost predicate Resumes(r: Run, id: string, luck: Luck)
  {
    Safe(r, id) && r.token.Some? && !r.s.disabled && Honest(luck)
  }

  ghost predicate PreviousReadable(s: State) { StageSecret(s.versions, PREVIOUS) != Err(BadJson) }

  /** The token's version is already current, or pending with a value. */
  ghost predicate HasValue(r: Run, id: string)
  {
    r.token.Some? && (r.token == Some(id) || (HasCurrent(r.s, id) && PendingOf(r.s, id, r.token.value)))
  }

  ghost predicate HasPassword(r: Run, id: string)
  {
    HasValue(r, id) && (r.token == Some(id) || Accepts(r.s.db, r.s.versions[r.token.value].text.m))
  }

  lemma TokenHolds(r: Run, id: string)
    requires Safe(r, id) && r.token.Some?
    ensures Holds(r.s.versions, r.token.value, PENDING) && Holds(r.s.versions, id, CURRENT)
    ensures Holds(r.s.versions, r.token.value, CURRENT) <==> r.token == Some(id)
    ensures r.token != Some(id) ==> Midway(r.s, id, r.token.value, r.done)
  {
    HolderIs(r.s.versions, r.token.value, PENDING);
  }

  lemma CurrentCompletes(r: Run, id: string, step: nat, luck: Luck)
    requires Resumes(r, id, luck) && r.token == Some(id) && step <= r.done && step < 4
    ensures Allowed(r, Call(step, luck)) && Next(r, Call(step, luck)).s == r.s
            && Next(r, Call(step, luck)).token == r.token
    ensures Next(r, Call(step, luck)).done >= step + 1
  {
    hide AfterCreate, AfterSet, AfterTest, AfterFinish;
    TokenHolds(r, id);
  }

  lemma PreviousAfterPut(versions: map<string, Version>, token: string, m: Secret)
    requires StagesUnique(versions) && Holds(versions, token, PENDING)
             && StageSecret(versions, PREVIOUS) != Err(BadJson)
    ensures StageSecret(Put(versions, token, m), PREVIOUS) != Err(BadJson)
  {
    var put := Put(versions, token, m);
    assert forall id :: Holds(put, id, PREVIOUS) <==> Holds(versions, id, PREVIOUS);
    if Holder(versions, PREVIOUS).Some? {
      HolderIs(put, Holder(versions, PREVIOUS).value, PREVIOUS);
    }
  }

  lemma FirstCompletes(r: Run, id: string, luck: Luck)
    requires Resumes(r, id, luck) && PreviousReadable(r.s)
    ensures var e := Call(0, luck);
            && Allowed(r, e) && Resumes(Next(r, e), id, luck) && PreviousReadable(Next(r, e).s)
              && Next(r, e).token == r.token
            && HasValue(Next(r, e), id) && Next(r, e).done >= 1
  {
    TokenHolds(r, id);
    if r.token == Some(id) {
      CurrentCompletes(r, id, 0, luck);
    } else {
      EarlierStepIsSafe(r, 0, luck, id);
      var token, m := r.token.value, r.s.versions[id].text.m;
      HolderIs(r.s.versions, id, CURRENT);
      FieldsKept(m, luck.password);
      FieldsKept(m, "");
      PreviousAfterPut(r.s.versions, token, m["password" := luck.password]);
      hide StageSecret, Safe, Midway;
      TokenHolds(Next(r, Call(0, luck)), id);
    }
  }

  lemma SecondCompletes(r: Run, id: string, luck: Luck)
    requires Resumes(r, id, luck) && PreviousReadable(r.s) && HasValue(r, id) && r.done >= 1
    ensures var e := Call(1, luck);
            && Allowed(r, e) && Resumes(Next(r, e), id, luck) && Next(r, e).token == r.token
            && HasPassword(Next(r, e), id) && Next(r, e).done >= 2
  {
    TokenHolds(r, id);
    if r.token == Some(id) {
      CurrentCompletes(r, id, 1, luck);
    } else {
      EarlierStepIsSafe(r, 1, luck, id);
      SetSecretReachesPending(r.s, id, r.token.value, luck);
      SetKeepsVersions(r.s, r.token.value, luck);
      hide StageSecret, AfterSet, Safe;
    }
  }

  lemma SetKeepsVersions(s: State, token: string, luck: Luck)
    ensures AfterSet(s, token, luck).0.versions == s.versions && AfterSet(s, token, luck).0.disabled == s.disabled
    ensures forall account :: account in s.db ==> account in AfterSet(s, token, luck).0.db
  {
  }

  lemma ThirdCompletes(r: Run, id: string, luck: Luck)
    requires Resumes(r, id, luck) && HasPassword(r, id) && r.done >= 2
    ensures var e := Call(2, luck);
            && Allowed(r, e) && Resumes(Next(r, e), id, luck) && Next(r, e).token == r.token
            && Next(r, e).done >= 3
  {
    TokenHolds(r, id);
    if r.token == Some(id) {
      CurrentCompletes(r, id, 2, luck);
    } else {
      EarlierStepIsSafe(r, 2, luck, id);
      FieldsKept(r.s.versions[id].text.m, "");
      hide StageSecret, Safe, Midway;
    }
  }

  lemma FourthCompletes(r: Run, id: string, luck: Luck)
    requires Resumes(r, id, luck) && r.done >= 3
    ensures Allowed(r, Call(3, luck)) && Holder(Next(r, Call(3, luck)).s.versions, CURRENT) == r.token
  {
    TokenHolds(r, id);
    if r.token == Some(id) {
      CurrentCompletes(r, id, 3, luck);
      HolderIs(r.s.versions, id, CURRENT);
    } else {
      HolderIs(r.s.versions, id, CURRENT);
      MovedStages(r.s.versions, id, r.token.value);
      HolderIs(MoveCurrent(r.s.versions, id, r.token.value), r.token.value, CURRENT);
    }
  }

  lemma FourEvents(r: Run, e0: Event, e1: Event, e2: Event, e3: Event)
    requires Allowed(r, e0) && Allowed(Next(r, e0), e1) && Allowed(Next(Next(r, e0), e1), e2)
    requires Allowed(Next(Next(Next(r, e0), e1), e2), e3)
    ensures AllAllowed(r, [e0, e1, e2, e3]) && After(r, [e0, e1, e2, e3]) == Next(Next(Next(Next(r, e0), e1), e2), e3)
  {
    hide Next, Allowed;
    var r1 := Next(r, e0);
    var r2 := Next(r1, e1);
    var r3 := Next(r2, e2);
    var r4 := Next(r3, e3);
    assert [e0, e1, e2, e3][1..] == [e1, e2, e3] && [e1, e2, e3][1..] == [e2, e3] && [e2, e3][1..] == [e3]
           && [e3][1..] == [];
    assert AllAllowed(r4, []) && After(r4, []) == r4;
    assert AllAllowed(r3, [e3]) && After(r3, [e3]) == r4;
    assert AllAllowed(r2, [e2, e3]) && After(r2, [e2, e3]) == r4;
    assert AllAllowed(r1, [e1, e2, e3]) && After(r1, [e1, e2, e3]) == r4;
  }

  /** Wherever a rotation was left, calling the four steps again with working logins completes it. */
  lemma ResumedRotationCompletes(r: Run, id: string, luck: Luck)
    requires Safe(r, id) && r.token.Some? && !r.s.disabled && Honest(luck)
    requires StageSecret(r.s.versions, PREVIOUS) != Err(BadJson)
    ensures var events := [Call(0, luck), Call(1, luck), Call(2, luck), Call(3, luck)];
            AllAllowed(r, events) && Holder(After(r, events).s.versions, CURRENT) == r.token
  {
    assert Resumes(r, id, luck);
    hide Safe, Next, Allowed, Resumes, HasValue, HasPassword;
    assert PreviousReadable(r.s);
    hide PreviousReadable;
    var r1 := (FirstCompletes(r, id, luck); Next(r, Call(0, luck)));
    var r2 := (SecondCompletes(r1, id, luck); Next(r1, Call(1, luck)));
    var r3 := (ThirdCompletes(r2, id, luck); Next(r2, Call(2, luck)));
    FourthCompletes(r3, id, luck);
    FirstCompletes(r, id, luck);
    SecondCompletes(r1, id, luck);
    ThirdCompletes(r2, id, luck);
    FourEvents(r, Call(0, luck), Call(1, luck), Call(2, luck), Call(3, luck));
  }

  /** The run ends with the version of the rotation current. */
  ghost predicate Finishes(r: Run, events: seq<Event>)
  {
    AllAllowed(r, events) && r.token.Some? && Holds(After(r, events).s.versions, r.token.value, CURRENT)
  }

  lemma HolderHolds(versions: map<string, Version>, id: string, stage: string)
    requires Holder(versions, stage) == Some(id)
    ensures Holds(versions, id, stage)
  {
  }

  /** With the pending password set and tested or testable, the last steps complete a rotation whatever
      the previous secret is. */
  lemma LastStepsComplete(r: Run, id: string, luck: Luck) returns (events: seq<Event>)
    requires Resumes(r, id, luck)
    requires r.done >= 3 || (r.done >= 2 && HasPassword(r, id))
    ensures Finishes(r, events)
  {
    hide Safe, Next, Allowed, Resumes, HasPassword, Holds;
    if r.done >= 3 {
      events := [Call(3, luck)];
      FourthCompletes(r, id, luck);
      var n := Next(r, Call(3, luck));
      OneEvent(r, Call(3, luck));
      HolderHolds(n.s.versions, r.token.value, CURRENT);
    } else {
      events := [Call(2, luck), Call(3, luck)];
      ThirdCompletes(r, id, luck);
      var n := Next(r, Call(2, luck));
      FourthCompletes(n, id, luck);
      OneEvent(n, Call(3, luck));
      assert events[1..] == [Call(3, luck)];
      HolderHolds(Next(n, Call(3, luck)).s.versions, r.token.value, CURRENT);
    }
  }

  lemma OneEvent(r: Run, e: Event)
    requires Allowed(r, e)
    ensures AllAllowed(r, [e]) && After(r, [e]) == Next(r, e)
  {
    hide Allowed, Next;
    assert [e][1..] == [];
    assert AllAllowed(Next(r, e), []) && After(Next(r, e), []) == Next(r, e);
  }

  lemma NotStuckFinishes(r: Run, id: string) returns (events: seq<Event>)
    requires Safe(r, id) && r.token.Some? && !Stuck(r, id)
    ensures Finishes(r, events)
  {
    hide Safe, Next, Allowed, HasPassword, StageSecret;
    var luck := Luck(true, true, true, "", false, false);
    if r.token == Some(id) {
      events := [];
      TokenHolds(r, id);
    } else if StageSecret(r.s.versions, PREVIOUS) != Err(BadJson) {
      events := [Call(0, luck), Call(1, luck), Call(2, luck), Call(3, luck)];
      ResumedRotationCompletes(r, id, luck);
      HolderHolds(After(r, events).s.versions, r.token.value, CURRENT);
    } else {
      events := LastStepsComplete(r, id, luck);
    }
  }

  /** Some run finishes a rotation under way if and only if it is not stuck. */
  lemma FinishesExactly(r: Run, id: string)
    requires Safe(r, id) && r.token.Some?
    ensures (exists events :: Finishes(r, events)) <==> !Stuck(r, id)
  {
    hide Safe, Stuck, Holds, After, AllAllowed;
    if Stuck(r, id) {
      forall events ensures !Finishes(r, events) {
        if AllAllowed(r, events) { BadPreviousBlocksForGood(r, events, id); }
      }
    } else {
      var events := NotStuckFinishes(r, id);
    }
  }

  /** From a state between rotations whose previous secret is no JSON, beginning a rotation is enough. */
  lemma BeginningGetsStuck()
    ensures var y: Secret := map["engine" := "postgres", "host" := "h", "username" := "u", "password" := "y"];
            var versions := map["a" := Version({PREVIOUS}, BadText), "b" := Version({CURRENT}, Fields(y))];
            var r := Run(State(false, versions, map[(Server("h", "5432"), "u") := "y"]), None, 0);
            && HasCurrent(r.s, "b") && Settled(r.s, "b")
            && Allowed(r, Begin("c")) && Stuck(Next(r, Begin("c")), "b")
  {
    var y: Secret := map["engine" := "postgres", "host" := "h", "username" := "u", "password" := "y"];
    var versions := map["a" := Version({PREVIOUS}, BadText), "b" := Version({CURRENT}, Fields(y))];
    var r := Run(State(false, versions, map[(Server("h", "5432"), "u") := "y"]), None, 0);
    assert Usable(y) && Account(y) == (Server("h", "5432"), "u");
    HolderIs(versions, "b", CURRENT);
    BeginIsSafe(r, "c", "b");
    var n := Next(r, Begin("c"));
    HolderIs(n.s.versions, "a", PREVIOUS);
    assert StageSecret(n.s.versions, PREVIOUS) == Err(BadJson);
  }
}
