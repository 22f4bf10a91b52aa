/** What every call of the rotation handler checks and may change, from any state of the two stores. */
module RotationChecks {
  import opened Wrappers
  import opened Rotation

  /** The three inputs are there and printable. */
  predicate HasInputs(event: map<string, string>)
  {
    && "SecretId" in event && ValidInput(event["SecretId"])
    && "ClientRequestToken" in event && ValidInput(event["ClientRequestToken"])
    && "Step" in event && ValidInput(event["Step"])
  }

  /** What a call returns and keeps before any step is taken, check by check in order. */
  lemma EntryChecks(s: State, event: map<string, string>, luck: Luck)
    ensures !HasInputs(event) ==> AfterEvent(s, event, luck) == (s, Raised(BadInput))
    ensures HasInputs(event) && s.disabled ==> AfterEvent(s, event, luck) == (s, Raised(NotEnabled))
    ensures HasInputs(event) && !s.disabled ==>
              var token := event["ClientRequestToken"];
              && (token !in s.versions ==> AfterEvent(s, event, luck) == (s, Raised(NoSuchVersion)))
              && (token in s.versions && "AWSCURRENT" in s.versions[token].stages ==>
                    AfterEvent(s, event, luck) == (s, Done))
              && (token in s.versions && "AWSCURRENT" !in s.versions[token].stages
                  && "AWSPENDING" !in s.versions[token].stages ==>
                    AfterEvent(s, event, luck) == (s, Raised(NotStaged)))
              && (token in s.versions && "AWSCURRENT" !in s.versions[token].stages
                  && "AWSPENDING" in s.versions[token].stages
                  && event["Step"] !in {"createSecret", "setSecret", "testSecret", "finishSecret"} ==>
                    AfterEvent(s, event, luck) == (s, Raised(BadStep)))
  {
    hide AfterCreate, AfterSet, AfterTest, AfterFinish, ValidInput;
  }

  /** A call changes something only for a version that is pending and not current while rotation is on,
      and only what its step is for: versions in the first and the last step, the database in the second. */
  lemma ChangesOnlyPending(s: State, event: map<string, string>, luck: Luck)
    ensures var s' := AfterEvent(s, event, luck).0;
            && s'.disabled == s.disabled
            && (s' != s ==>
                  && HasInputs(event) && !s.disabled
                  && var token := event["ClientRequestToken"];
                  && token in s.versions
                  && "AWSPENDING" in s.versions[token].stages && "AWSCURRENT" !in s.versions[token].stages)
            && (s'.versions != s.versions ==> event["Step"] == "createSecret" || event["Step"] == "finishSecret")
            && (s'.db != s.db ==> event["Step"] == "setSecret")
  {
    hide ValidInput, StageSecret, VersionSecret, Holder, Put, MoveCurrent, Accepts, Usable;
    EntryChecks(s, event, luck);
  }

  /** The superseded version stays superseded: finishing with its ID is refused. */
  lemma SupersededIsRefused(luck: Luck)
    ensures var versions := map["a" := Version({"AWSPREVIOUS"}, NoValue), "b" := Version({"AWSCURRENT"}, NoValue)];
            var s := State(false, versions, map[]);
            var event := map["SecretId" := "arn", "ClientRequestToken" := "a", "Step" := "finishSecret"];
            AfterEvent(s, event, luck) == (s, Raised(NotStaged))
  {
    var event := map["SecretId" := "arn", "ClientRequestToken" := "a", "Step" := "finishSecret"];
    assert ValidInput("arn") && ValidInput("a") && ValidInput("finishSecret");
    var versions := map["a" := Version({"AWSPREVIOUS"}, NoValue), "b" := Version({"AWSCURRENT"}, NoValue)];
    EntryChecks(State(false, versions, map[]), event, luck);
  }

  /** Inputs are printable ASCII, with one line break allowed at the end. */
  lemma InputsArePrintable(s: string)
    ensures ValidInput(s) <==>
              exists t: string ::
                (s == t || s == t + "\n") && t != "" && forall k :: 0 <= k < |t| ==> ' ' <= t[k] <= '~'
  {
    if ValidInput(s) {
      var t := if Printable(s) then s else s[..|s| - 1];
      assert s == t || s == t + "\n";
    }
    if t: string :| (s == t || s == t + "\n") && t != "" && forall k :: 0 <= k < |t| ==> ' ' <= t[k] <= '~' {
      assert s == t + "\n" ==> s[..|s| - 1] == t;
    }
  }

  /** The secrets that are accepted, and what is raised for the others. */
  lemma SecretsAccepted(text: Text, m: Secret)
    ensures CheckText(text) == Ok(m) <==>
              && text == Fields(m)
              && "engine" in m && m["engine"] in {"postgres", "aurora-postgresql"}
              && "host" in m && "username" in m && "password" in m
    ensures CheckText(NoValue) == Err(NotFound) && CheckText(BadText) == Err(BadJson)
    ensures CheckText(text).Err? && (text.Fields? || text.NoFields?) ==> CheckText(text) == Err(KeyMissing)
  {
  }

  /** setSecret changes one account of one server at most: that of the pending secret's user and host,
      which are also those of the current secret, to the pending password, over a login by the current
      or the previous secret's own password. */
  lemma SetChangesOwnAccount(s: State, token: string, id: string, luck: Luck)
    requires StagesUnique(s.versions) && Holds(s.versions, id, "AWSCURRENT")
    ensures var s' := AfterSet(s, token, luck).0;
            s' != s ==>
              && token in s.versions && s.versions[token].text.Fields? && s.versions[id].text.Fields?
              && var m, p := s.versions[id].text.m, s.versions[token].text.m;
              && "host" in m && "username" in m && "host" in p && "username" in p && "password" in p
              && m["username"] == p["username"] && m["host"] == p["host"]
              && exists port, password ::
                   && (Server(p["host"], port), p["username"]) in s.db
                   && s.db[(Server(p["host"], port), p["username"])] == password
                   && LoginOf(s, id, port, password)
                   && s' == s.(db := s.db[(Server(p["host"], port), p["username"]) := p["password"]])
  {
    HolderIs(s.versions, id, "AWSCURRENT");
    var s' := AfterSet(s, token, luck).0;
    if s' != s {
      var m, p := s.versions[id].text.m, s.versions[token].text.m;
      var previous := StageSecret(s.versions, "AWSPREVIOUS");
      var via := if luck.currentLogin && Accepts(s.db, m) then m else previous.value;
      assert s' == s.(db := s.db[(ServerOf(via), p["username"]) := p["password"]]);
      assert LoginOf(s, id, ServerOf(via).port, via["password"]);
    }
  }

  /** Stopped before its effect, setSecret has none and does not report success; a change is reported
      unless the call is stopped after it, and without one success means that the pending secret works. */
  lemma SetStops(s: State, token: string, luck: Luck)
    ensures var (s', o) := AfterSet(s, token, luck);
            && (luck.stopBefore ==> s' == s)
            && (s' != s ==> o == if luck.stopAfter then Stopped else Done)
            && (luck.stopBefore && o == Done ==>
                  && token in s.versions && s.versions[token].text.Fields?
                  && var p := s.versions[token].text.m;
                  && Usable(p) && Accepts(s.db, p) && luck.pendingLogin)
  {
    hide Usable, StageSecret, Accepts, ServerOf;
  }

  /** The current version, or one that is previous, has this port and password. */
  ghost predicate LoginOf(s: State, id: string, port: string, password: string)
  {
    exists v :: v in s.versions && (v == id || "AWSPREVIOUS" in s.versions[v].stages)
                && s.versions[v].text.Fields? && var m := s.versions[v].text.m;
                "password" in m && m["password"] == password && port == if "port" in m then m["port"] else "5432"
  }

  /** A pending secret of another user or host than the current one is refused, unless it already works. */
  lemma MismatchIsRefused(s: State, token: string, id: string, luck: Luck)
    requires StagesUnique(s.versions) && Holds(s.versions, id, "AWSCURRENT")
    requires Holds(s.versions, token, "AWSPENDING")
    requires s.versions[id].text.Fields? && Usable(s.versions[id].text.m)
    requires s.versions[token].text.Fields? && Usable(s.versions[token].text.m)
    requires StageSecret(s.versions, "AWSPREVIOUS") != Err(BadJson)
    requires !(luck.pendingLogin && Accepts(s.db, s.versions[token].text.m))
    ensures var m, p := s.versions[id].text.m, s.versions[token].text.m;
            && (m["username"] != p["username"] ==> AfterSet(s, token, luck) == (s, Raised(UserMismatch)))
            && (m["username"] == p["username"] && m["host"] != p["host"] ==>
                  AfterSet(s, token, luck) == (s, Raised(HostMismatch)))
  {
    HolderIs(s.versions, id, "AWSCURRENT");
  }

  /** testSecret changes nothing, and succeeds exactly over a login with the pending secret's own user
      name and password, to its own host and port. */
  lemma TestNeedsLogin(s: State, token: string, luck: Luck)
    ensures AfterTest(s, token, luck).0 == s
    ensures !luck.stopBefore ==>
              (AfterTest(s, token, luck).1 == Done <==>
                 && token in s.versions && "AWSPENDING" in s.versions[token].stages && s.versions[token].text.Fields?
                 && var p := s.versions[token].text.m;
                 && Usable(p) && luck.pendingLogin
                 && var account := (Server(p["host"], if "port" in p then p["port"] else "5432"), p["username"]);
                 && account in s.db && s.db[account] == p["password"])
    ensures luck.stopBefore ==> AfterTest(s, token, luck).1 != Done
  {
  }

  /** createSecret gives a pending version without a value the fields of the current secret with another
      password; the database, the other values and all other stages stay. */
  lemma CreateFills(s: State, token: string, id: string, luck: Luck)
    requires StagesUnique(s.versions) && Holds(s.versions, id, "AWSCURRENT") && Holds(s.versions, token, "AWSPENDING")
    requires s.versions[id].text.Fields? && Usable(s.versions[id].text.m) && s.versions[token].text == NoValue
    ensures luck.stopBefore ==> AfterCreate(s, token, luck) == (s, Stopped)
    ensures !luck.stopBefore ==>
              var (s', o) := AfterCreate(s, token, luck);
              && o == (if luck.stopAfter then Stopped else Done)
              && s'.db == s.db && s'.disabled == s.disabled && s'.versions.Keys == s.versions.Keys
              && s'.versions[token].text == Fields(s.versions[id].text.m["password" := luck.password])
              && (forall v :: v in s.versions ==> s'.versions[v].stages == s.versions[v].stages)
              && (forall v :: v in s.versions && v != token ==> s'.versions[v].text == s.versions[v].text)
  {
    HolderIs(s.versions, id, "AWSCURRENT");
    if !luck.stopBefore {
      var s' := AfterCreate(s, token, luck).0;
      assert s'.versions == Put(s.versions, token, s.versions[id].text.m["password" := luck.password]);
      forall v | v in s.versions ensures s'.versions[v].stages == s.versions[v].stages {
        if v == token {
          assert s.versions[v].stages + {"AWSPENDING"} == s.versions[v].stages;
        } else {
          assert "AWSPENDING" !in s.versions[v].stages;
        }
      }
      assert s.versions.Keys + {token} == s.versions.Keys;
    }
  }

  /** finishSecret moves AWSCURRENT to the token and AWSPREVIOUS to the version it comes from; values,
      the database and all other stages stay. */
  lemma FinishMoves(s: State, token: string, id: string, luck: Luck)
    requires StagesUnique(s.versions) && Holds(s.versions, id, "AWSCURRENT") && token in s.versions
    ensures token == id ==> AfterFinish(s, token, luck) == (s, Done)
    ensures token != id && luck.stopBefore ==> AfterFinish(s, token, luck) == (s, Stopped)
    ensures token != id && !luck.stopBefore ==>
              var (s', o) := AfterFinish(s, token, luck);
              && o == (if luck.stopAfter then Stopped else Done)
              && s'.db == s.db && s'.disabled == s.disabled && s'.versions.Keys == s.versions.Keys
              && forall v :: v in s.versions ==>
                   && s'.versions[v].text == s.versions[v].text
                   && ("AWSCURRENT" in s'.versions[v].stages <==> v == token)
                   && ("AWSPREVIOUS" in s'.versions[v].stages <==> v == id)
                   && forall stage :: stage != "AWSCURRENT" && stage != "AWSPREVIOUS" ==>
                        (stage in s'.versions[v].stages <==> stage in s.versions[v].stages)
  {
    HolderIs(s.versions, id, "AWSCURRENT");
    if token != id && !luck.stopBefore {
      var s' := AfterFinish(s, token, luck).0;
      assert s'.versions == MoveCurrent(s.versions, id, token);
      forall v | v in s.versions && v != id ensures "AWSCURRENT" !in s.versions[v].stages {
      }
    }
  }
}
