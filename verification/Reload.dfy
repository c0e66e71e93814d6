/**
 The reloadable server state of `src/server.rs` and `src/admin.rs`: connection handlers,
 admin logins and configuration reloads as interleaved steps over one read-write lock.
 */
module Reload {
  import opened Wrappers
  import opened Addresses

  datatype BindFields = BindFields(bindAddress: string, socks5Port: U16, httpPort: U16,
                                   adminAddress: string, adminPort: U16)

  datatype Backend =
    | Simple(userConfigFile: string)
    | Pam(service: string)
    | Ldap(url: string, baseDn: string, userFilter: string)
    | Database(url: string, query: string)
    | NoBackend

  datatype Config = Config(bind: BindFields, authEnabled: bool, backend: Backend, adminUsers: seq<string>)
  {
    // The authentication clause of `validate`.
    predicate AuthRule() {
      authEnabled ==>
        match backend
        case Simple(file) => file != ""
        case Pam(service) => service != ""
        case Ldap(url, baseDn, userFilter) => url != "" && baseDn != "" && userFilter != ""
        case Database(url, query) => url != "" && query != ""
        case NoBackend => false
    }
  }

  type Accepts = (string, string) -> bool

  datatype Authenticator = Authenticator(backend: Backend, accepts: Accepts)

  // `create_authenticator`. The backend's own construction may fail, and what it then
  // accepts is arbitrary.
  function CreateAuthenticator(c: Config, built: Option<Accepts>): Result<Option<Authenticator>, string> {
    if !c.authEnabled || c.backend == NoBackend then Ok(None)
    else
      match built
      case None => Err("backend")
      case Some(accepts) => Ok(Some(Authenticator(c.backend, accepts)))
  }

  // What one write put into the shared state.
  datatype Installed = Installed(config: Config, authenticator: Option<Authenticator>)

  datatype Task =
    | HandlerWaits
    | HandlerLocked
    | HandlerHasConfig(config: Config)
    | HandlerHasBoth(config: Config, authenticator: Option<Authenticator>)
    | Handling(config: Config, authenticator: Option<Authenticator>)
    | LoginWaits(user: string, password: string)
    | LoginLocked(user: string, password: string)
    | LoginHasAuth(user: string, password: string, authenticator: Option<Authenticator>)
    | LoginHasBoth(user: string, password: string, authenticator: Option<Authenticator>, config: Config)
    | LoginChecks(user: string, password: string, authenticator: Option<Authenticator>, config: Config)
    | ReloadWaits
    | ReloadLocked
    | ReloadHasSnapshot(snapshot: Config)
    | ReloadLoads(snapshot: Config)
    | ReloadBuilds(config: Config)
    | ReloadReady(config: Config, authenticator: Option<Authenticator>)
    | ReloadWriting(config: Config, authenticator: Option<Authenticator>)
    | ReloadWroteConfig(config: Config, authenticator: Option<Authenticator>)
    | ReloadWroteBoth(config: Config, authenticator: Option<Authenticator>)
    | Over
  {
    predicate Reading() {
      HandlerLocked? || HandlerHasConfig? || HandlerHasBoth? || LoginLocked? || LoginHasAuth? || LoginHasBoth?
      || ReloadLocked? || ReloadHasSnapshot?
    }

    predicate Writing() {
      ReloadWriting? || ReloadWroteConfig? || ReloadWroteBoth?
    }
  }

  // A token issued to `user`, who logged in with `password`.
  datatype Issue = Issue(user: string, password: string)

  datatype System = System(config: Config, authenticator: Option<Authenticator>, tasks: seq<Task>,
                           writes: seq<Installed>, issued: seq<Issue>)

  datatype Step =
    | StartHandler | StartLogin(user: string, password: string) | StartReload
    | Lock(task: nat)
    | CloneConfig(task: nat)
    | CloneAuthenticator(task: nat)
    | Unlock(task: nat)
    | Authenticate(task: nat)
    | Load(task: nat, loaded: Option<Config>)                        // what the file holds, if it can be read
    | Build(task: nat, built: Option<Accepts>)
    | WriteConfig(task: nat)
    | WriteAuthenticator(task: nat)

  predicate NoneWriting(tasks: seq<Task>) {
    forall i :: 0 <= i < |tasks| ==> !tasks[i].Writing()
  }

  predicate NoneHolding(tasks: seq<Task>) {
    forall i :: 0 <= i < |tasks| ==> !tasks[i].Writing() && !tasks[i].Reading()
  }

  predicate HasTask(s: System, step: Step) {
    !step.StartHandler? && !step.StartLogin? && !step.StartReload? ==> step.task < |s.tasks|
  }

  predicate Enabled(s: System, step: Step) {
    HasTask(s, step) &&
    match step
    case StartHandler => true
    case StartLogin(_, _) => true
    case StartReload => true
    case Lock(i) =>
      (match s.tasks[i]
       case HandlerWaits => NoneWriting(s.tasks)
       case LoginWaits(_, _) => NoneWriting(s.tasks)
       case ReloadWaits => NoneWriting(s.tasks)
       case ReloadReady(_, _) => NoneHolding(s.tasks)
       case _ => false)
    case CloneConfig(i) => s.tasks[i].HandlerLocked? || s.tasks[i].LoginHasAuth? || s.tasks[i].ReloadLocked?
    case CloneAuthenticator(i) => s.tasks[i].HandlerHasConfig? || s.tasks[i].LoginLocked?
    case Unlock(i) =>
      || s.tasks[i].HandlerHasBoth? || s.tasks[i].LoginHasBoth?
      || s.tasks[i].ReloadHasSnapshot? || s.tasks[i].ReloadWroteBoth?
    case Authenticate(i) => s.tasks[i].LoginChecks?
    case Load(i, _) => s.tasks[i].ReloadLoads?
    case Build(i, _) => s.tasks[i].ReloadBuilds?
    case WriteConfig(i) => s.tasks[i].ReloadWriting?
    case WriteAuthenticator(i) => s.tasks[i].ReloadWroteConfig?
  }

  function Become(s: System, i: nat, t: Task): System
    requires i < |s.tasks|
  {
    s.(tasks := s.tasks[i := t])
  }

  function Apply(s: System, step: Step): System
    requires Enabled(s, step)
  {
    match step
    case StartHandler => s.(tasks := s.tasks + [HandlerWaits])
    case StartLogin(user, password) => s.(tasks := s.tasks + [LoginWaits(user, password)])
    case StartReload => s.(tasks := s.tasks + [ReloadWaits])
    case Lock(i) =>
      Become(s, i, match s.tasks[i]
                   case HandlerWaits => HandlerLocked
                   case LoginWaits(u, p) => LoginLocked(u, p)
                   case ReloadWaits => ReloadLocked
                   case ReloadReady(c, a) => ReloadWriting(c, a))
    case CloneConfig(i) =>
      Become(s, i, match s.tasks[i]
                   case HandlerLocked => HandlerHasConfig(s.config)
                   case LoginHasAuth(u, p, a) => LoginHasBoth(u, p, a, s.config)
                   case ReloadLocked => ReloadHasSnapshot(s.config))
    case CloneAuthenticator(i) =>
      Become(s, i, match s.tasks[i]
                   case HandlerHasConfig(c) => HandlerHasBoth(c, s.authenticator)
                   case LoginLocked(u, p) => LoginHasAuth(u, p, s.authenticator))
    case Unlock(i) =>
      Become(s, i, match s.tasks[i]
                   case HandlerHasBoth(c, a) => Handling(c, a)
                   case LoginHasBoth(u, p, a, c) => LoginChecks(u, p, a, c)
                   case ReloadHasSnapshot(c) => ReloadLoads(c)
                   case ReloadWroteBoth(_, _) => Over)
    case Authenticate(i) =>
      var t := s.tasks[i];
      var passes := t.authenticator.Some? && t.authenticator.value.accepts(t.user, t.password)
        && t.user in t.config.adminUsers;
      Become(s, i, Over).(issued := if passes then s.issued + [Issue(t.user, t.password)] else s.issued)
    // The file is validated; the port check is made against the snapshot, not the live state.
    case Load(i, loaded) =>
      var same := loaded.Some? && loaded.value.AuthRule() && loaded.value.bind == s.tasks[i].snapshot.bind;
      Become(s, i, if same then ReloadBuilds(loaded.value) else Over)
    case Build(i, built) =>
      var c := s.tasks[i].config;
      Become(s, i, match CreateAuthenticator(c, built) case Ok(a) => ReloadReady(c, a) case Err(_) => Over)
    case WriteConfig(i) =>
      var t := s.tasks[i];
      Become(s, i, ReloadWroteConfig(t.config, t.authenticator)).(config := t.config)
    case WriteAuthenticator(i) =>
      var t := s.tasks[i];
      Become(s, i, ReloadWroteBoth(t.config, t.authenticator)).(
        authenticator := t.authenticator, writes := s.writes + [Installed(t.config, t.authenticator)])
  }

  // `ProxyServer::create`
  function Start(config: Config, authenticator: Option<Authenticator>): System {
    System(config, authenticator, [], [Installed(config, authenticator)], [])
  }

  function Play(s: System, steps: seq<Step>): Option<System> {
    if steps == [] then Some(s)
    else
      match Play(s, steps[..|steps|-1])
      case None => None
      case Some(before) =>
        if Enabled(before, steps[|steps|-1]) then Some(Apply(before, steps[|steps|-1])) else None
  }

  /// The invariant

  // A pair that one build made: an authenticator exactly when authentication is enabled
  // with a backend, and then for that backend.
  ghost predicate Matched(c: Config, a: Option<Authenticator>) {
    && (a.Some? <==> c.authEnabled && c.backend != NoBackend)
    && (a.Some? ==> a.value.backend == c.backend)
  }

  ghost predicate Last(s: System, c: Config, a: Option<Authenticator>) {
    s.writes != [] && s.writes[|s.writes|-1] == Installed(c, a)
  }

  ghost predicate TaskOk(s: System, bind: BindFields, t: Task) {
    match t
    case HandlerHasConfig(c) => c == s.config
    case HandlerHasBoth(c, a) => c == s.config && a == s.authenticator
    case Handling(c, a) => Installed(c, a) in s.writes
    case LoginHasAuth(_, _, a) => a == s.authenticator
    case LoginHasBoth(_, _, a, c) => c == s.config && a == s.authenticator
    case LoginChecks(_, _, a, c) => Installed(c, a) in s.writes
    case ReloadHasSnapshot(c) => c.bind == bind
    case ReloadLoads(c) => c.bind == bind
    case ReloadBuilds(c) => c.bind == bind && c.AuthRule()
    case ReloadReady(c, a) => c.bind == bind && c.AuthRule() && Matched(c, a)
    case ReloadWriting(c, a) => c.bind == bind && c.AuthRule() && Matched(c, a) && Last(s, s.config, s.authenticator)
    case ReloadWroteConfig(c, a) => c.bind == bind && c.AuthRule() && Matched(c, a) && s.config == c
    case ReloadWroteBoth(c, a) => Last(s, s.config, s.authenticator)
    case _ => true
  }

  predicate Exclusive(tasks: seq<Task>) {
    forall i, j :: 0 <= i < |tasks| && 0 <= j < |tasks| && i != j && tasks[i].Writing() ==>
      !tasks[j].Writing() && !tasks[j].Reading()
  }

  // Some write could have led to this token.
  ghost predicate Justified(s: System, t: Issue) {
    exists w :: w in s.writes && w.authenticator.Some? && w.authenticator.value.accepts(t.user, t.password)
                && t.user in w.config.adminUsers
  }

  ghost predicate Inv(s: System, bind: BindFields) {
    && s.config.bind == bind
    && (forall i :: 0 <= i < |s.tasks| ==> TaskOk(s, bind, s.tasks[i]))
    && Exclusive(s.tasks)
    && (NoneWriting(s.tasks) ==> Last(s, s.config, s.authenticator))
    && (forall k :: 0 <= k < |s.writes| ==>
          s.writes[k].config.bind == bind && Matched(s.writes[k].config, s.writes[k].authenticator))
    && (forall k :: 1 <= k < |s.writes| ==> s.writes[k].config.AuthRule())
    && s.writes != []
    && (forall k :: 0 <= k < |s.issued| ==> Justified(s, s.issued[k]))
  }

  lemma StartInv(config: Config, authenticator: Option<Authenticator>)
    requires Matched(config, authenticator)
    ensures Inv(Start(config, authenticator), config.bind)
  {
  }

  // Steps that leave the shared state and the histories alone.
  lemma QuietInv(s: System, bind: BindFields, i: nat, t: Task)
    requires Inv(s, bind) && i < |s.tasks|
    requires TaskOk(s, bind, t) && (t.Writing() ==> NoneHolding(s.tasks) || s.tasks[i].Writing())
    requires t.Reading() ==> NoneWriting(s.tasks) || s.tasks[i].Reading()
    requires s.tasks[i].Writing() && !t.Writing() ==> Last(s, s.config, s.authenticator)
    ensures Inv(Become(s, i, t), bind)
  {
    hide Justified, Matched;
    var next := Become(s, i, t);
    forall k | 0 <= k < |next.tasks| ensures TaskOk(next, bind, next.tasks[k]) {
      assert TaskOk(s, bind, if k == i then t else s.tasks[k]);
    }
    assert Exclusive(next.tasks);
    if NoneWriting(next.tasks) && !NoneWriting(s.tasks) {
      assert forall k :: 0 <= k < |s.tasks| && k != i ==> next.tasks[k] == s.tasks[k];
      assert s.tasks[i].Writing() && next.tasks[i] == t;
    }
    assert NoneWriting(next.tasks) ==> Last(next, next.config, next.authenticator);
    forall k | 0 <= k < |next.issued| ensures Justified(next, next.issued[k]) {
      assert Justified(s, s.issued[k]);
      JustifiedStays(s, next, s.issued[k]);
    }
  }

  lemma JustifiedStays(s: System, next: System, t: Issue)
    requires Justified(s, t) && forall w :: w in s.writes ==> w in next.writes
    ensures Justified(next, t)
  {
  }

  // The writer's first step: nobody else holds the lock, so nobody sees the half-written state.
  lemma WriteConfigInv(s: System, bind: BindFields, i: nat)
    requires Inv(s, bind) && Enabled(s, WriteConfig(i))
    ensures Inv(Apply(s, WriteConfig(i)), bind)
  {
    hide Justified, Matched;
    var next := Apply(s, WriteConfig(i));
    assert TaskOk(s, bind, s.tasks[i]);
    forall k | 0 <= k < |next.tasks| ensures TaskOk(next, bind, next.tasks[k]) {
      assert TaskOk(s, bind, s.tasks[k]);
      assert k != i ==> !s.tasks[k].Writing() && !s.tasks[k].Reading();
    }
    assert next.tasks[i].Writing();
    forall k | 0 <= k < |next.issued| ensures Justified(next, next.issued[k]) {
      JustifiedStays(s, next, s.issued[k]);
    }
  }

  lemma WriteAuthenticatorInv(s: System, bind: BindFields, i: nat)
    requires Inv(s, bind) && Enabled(s, WriteAuthenticator(i))
    ensures Inv(Apply(s, WriteAuthenticator(i)), bind)
  {
    hide Justified, Matched;
    var next := Apply(s, WriteAuthenticator(i));
    assert TaskOk(s, bind, s.tasks[i]);
    forall k | 0 <= k < |next.tasks| ensures TaskOk(next, bind, next.tasks[k]) {
      assert TaskOk(s, bind, s.tasks[k]);
      assert k != i ==> !s.tasks[k].Writing() && !s.tasks[k].Reading();
    }
    assert next.tasks[i].Writing();
    forall k | 0 <= k < |next.issued| ensures Justified(next, next.issued[k]) {
      JustifiedStays(s, next, s.issued[k]);
    }
  }

  lemma IssueInv(s: System, bind: BindFields, t: Issue)
    requires Inv(s, bind) && Justified(s, t)
    ensures Inv(s.(issued := s.issued + [t]), bind)
  {
    hide Matched, Justified;
    var next := s.(issued := s.issued + [t]);
    forall k | 0 <= k < |next.tasks| ensures TaskOk(next, bind, next.tasks[k]) {
      assert TaskOk(s, bind, s.tasks[k]);
    }
    forall k | 0 <= k < |next.issued| ensures Justified(next, next.issued[k]) {
      JustifiedStays(s, next, next.issued[k]);
    }
  }

  lemma AuthenticateInv(s: System, bind: BindFields, i: nat)
    requires Inv(s, bind) && Enabled(s, Authenticate(i))
    ensures Inv(Apply(s, Authenticate(i)), bind)
  {
    hide Inv;
    var t, quiet := s.tasks[i], Become(s, i, Over);
    Unfold(s, bind, i);
    QuietInv(s, bind, i, Over);
    if Apply(s, Authenticate(i)).issued != s.issued {
      assert Installed(t.config, t.authenticator) in quiet.writes;
      IssueInv(quiet, bind, Issue(t.user, t.password));
    }
  }

  lemma AddTaskInv(s: System, bind: BindFields, t: Task)
    requires Inv(s, bind) && (t.HandlerWaits? || t.LoginWaits? || t.ReloadWaits?)
    ensures Inv(s.(tasks := s.tasks + [t]), bind)
  {
    hide Justified, Matched;
    var next := s.(tasks := s.tasks + [t]);
    forall k | 0 <= k < |next.tasks| ensures TaskOk(next, bind, next.tasks[k]) {
      assert k < |s.tasks| ==> TaskOk(s, bind, s.tasks[k]);
    }
    if NoneWriting(next.tasks) {
      assert forall k :: 0 <= k < |s.tasks| ==> s.tasks[k] == next.tasks[k];
    }
    forall k | 0 <= k < |next.issued| ensures Justified(next, next.issued[k]) {
      JustifiedStays(s, next, s.issued[k]);
    }
  }

  // A reader keeps the writers out, so what it clones is what the last write installed.
  lemma ReaderSeesLast(s: System, bind: BindFields, i: nat)
    requires Inv(s, bind) && i < |s.tasks| && s.tasks[i].Reading()
    ensures NoneWriting(s.tasks) && Installed(s.config, s.authenticator) in s.writes
  {
    assert forall k :: 0 <= k < |s.tasks| && s.tasks[k].Writing() ==> k == i;
  }

  lemma ApplyInv(s: System, bind: BindFields, step: Step)
    requires Inv(s, bind) && Enabled(s, step)
    ensures Inv(Apply(s, step), bind)
  {
    match step
    case StartHandler => AddTaskInv(s, bind, HandlerWaits);
    case StartLogin(user, password) => AddTaskInv(s, bind, LoginWaits(user, password));
    case StartReload => AddTaskInv(s, bind, ReloadWaits);
    case WriteConfig(i) => WriteConfigInv(s, bind, i);
    case WriteAuthenticator(i) => WriteAuthenticatorInv(s, bind, i);
    case Authenticate(i) => AuthenticateInv(s, bind, i);
    case Lock(i) => LockInv(s, bind, i);
    case CloneConfig(i) => CloneInv(s, bind, step, i);
    case CloneAuthenticator(i) => CloneInv(s, bind, step, i);
    case Unlock(i) => UnlockInv(s, bind, i);
    case Load(i, loaded) => PrepareInv(s, bind, step, i);
    case Build(i, built) => PrepareInv(s, bind, step, i);
  }

  lemma LockInv(s: System, bind: BindFields, i: nat)
    requires Inv(s, bind) && Enabled(s, Lock(i))
    ensures Inv(Apply(s, Lock(i)), bind)
  {
    hide Inv, Matched;
    assert TaskOk(s, bind, s.tasks[i]) && (NoneWriting(s.tasks) ==> Last(s, s.config, s.authenticator)) by {
      Unfold(s, bind, i);
    }
    QuietInv(s, bind, i, Apply(s, Lock(i)).tasks[i]);
  }

  lemma CloneInv(s: System, bind: BindFields, step: Step, i: nat)
    requires Inv(s, bind) && Enabled(s, step) && (step == CloneConfig(i) || step == CloneAuthenticator(i))
    ensures Inv(Apply(s, step), bind)
  {
    hide Inv, Matched;
    Unfold(s, bind, i);
    QuietInv(s, bind, i, Apply(s, step).tasks[i]);
  }

  lemma UnlockInv(s: System, bind: BindFields, i: nat)
    requires Inv(s, bind) && Enabled(s, Unlock(i))
    ensures Inv(Apply(s, Unlock(i)), bind)
  {
    hide Inv, Matched;
    Unfold(s, bind, i);
    if s.tasks[i].Reading() {
      ReaderSeesLast(s, bind, i);
    }
    QuietInv(s, bind, i, Apply(s, Unlock(i)).tasks[i]);
  }

  lemma PrepareInv(s: System, bind: BindFields, step: Step, i: nat)
    requires Inv(s, bind) && Enabled(s, step) && (step.Load? || step.Build?) && step.task == i
    ensures Inv(Apply(s, step), bind)
  {
    hide Inv;
    Unfold(s, bind, i);
    QuietInv(s, bind, i, Apply(s, step).tasks[i]);
  }

  lemma Unfold(s: System, bind: BindFields, i: nat)
    requires Inv(s, bind) && i < |s.tasks|
    ensures TaskOk(s, bind, s.tasks[i]) && (NoneWriting(s.tasks) ==> Last(s, s.config, s.authenticator))
    ensures s.config.bind == bind
  {
  }

  lemma {:induction false} PlayInv(config: Config, authenticator: Option<Authenticator>, steps: seq<Step>)
    requires Matched(config, authenticator) && Play(Start(config, authenticator), steps).Some?
    ensures Inv(Play(Start(config, authenticator), steps).value, config.bind)
    ensures var writes := Play(Start(config, authenticator), steps).value.writes;
            writes != [] && writes[0] == Installed(config, authenticator)
  {
    hide Inv, Matched;
    if steps == [] {
      StartInv(config, authenticator);
    } else {
      PlayInv(config, authenticator, steps[..|steps|-1]);
      ApplyInv(Play(Start(config, authenticator), steps[..|steps|-1]).value, config.bind, steps[|steps|-1]);
    }
  }

  /// What every run keeps

  // Although each reload checks a snapshot that others may have replaced, the five bind
  // fields of the live configuration are always those at the start.
  lemma BindFieldsNeverChange(config: Config, built: Option<Accepts>, authenticator: Option<Authenticator>,
      steps: seq<Step>)
    requires CreateAuthenticator(config, built) == Ok(authenticator) && Play(Start(config, authenticator), steps).Some?
    ensures Play(Start(config, authenticator), steps).value.config.bind == config.bind
  {
    PlayInv(config, authenticator, steps);
  }

  // Every handler and every login works with a configuration and an authenticator that
  // one and the same write installed; and if the first configuration met the
  // authentication rule, authentication is never enabled there without an authenticator
  // for the configured backend.
  lemma OneWriteIsSeen(config: Config, built: Option<Accepts>, authenticator: Option<Authenticator>,
      steps: seq<Step>, i: nat)
    requires CreateAuthenticator(config, built) == Ok(authenticator) && Play(Start(config, authenticator), steps).Some?
    requires i < |Play(Start(config, authenticator), steps).value.tasks|
    ensures var s := Play(Start(config, authenticator), steps).value;
            var t := s.tasks[i];
            t.Handling? || t.LoginChecks? ==>
              && Installed(t.config, t.authenticator) in s.writes
              && (config.AuthRule() && t.config.authEnabled ==>
                    t.authenticator.Some? && t.authenticator.value.backend == t.config.backend)
  {
    hide Play;
    PlayInv(config, authenticator, steps);
    TaskSees(Play(Start(config, authenticator), steps).value, config, authenticator, i);
  }

  lemma TaskSees(s: System, config: Config, authenticator: Option<Authenticator>, i: nat)
    requires Inv(s, config.bind) && i < |s.tasks|
    requires s.writes != [] && s.writes[0] == Installed(config, authenticator)
    ensures var t := s.tasks[i];
            t.Handling? || t.LoginChecks? ==>
              && Installed(t.config, t.authenticator) in s.writes
              && (config.AuthRule() && t.config.authEnabled ==>
                    t.authenticator.Some? && t.authenticator.value.backend == t.config.backend)
  {
    assert TaskOk(s, config.bind, s.tasks[i]);
  }

  // Whenever the lock is not held for writing, the live pair is the last one installed,
  // and enabled authentication has its authenticator.
  lemma LiveStateIsMatched(config: Config, built: Option<Accepts>, authenticator: Option<Authenticator>,
      steps: seq<Step>)
    requires CreateAuthenticator(config, built) == Ok(authenticator) && config.AuthRule()
    requires Play(Start(config, authenticator), steps).Some?
    ensures var s := Play(Start(config, authenticator), steps).value;
            NoneWriting(s.tasks) ==>
              && s.writes != [] && s.writes[|s.writes|-1] == Installed(s.config, s.authenticator)
              && s.config.AuthRule()
              && (s.config.authEnabled ==> s.authenticator.Some? && s.authenticator.value.backend == s.config.backend)
  {
    PlayInv(config, authenticator, steps);
  }

  // Every token was issued for a user whom some installed authenticator accepted with
  // that password and whom the configuration installed with it lists as an admin.
  lemma TokensAreJustified(config: Config, built: Option<Accepts>, authenticator: Option<Authenticator>,
      steps: seq<Step>, k: nat)
    requires CreateAuthenticator(config, built) == Ok(authenticator) && Play(Start(config, authenticator), steps).Some?
    requires k < |Play(Start(config, authenticator), steps).value.issued|
    ensures var s := Play(Start(config, authenticator), steps).value;
            var t := s.issued[k];
            exists w :: w in s.writes && w.authenticator.Some? && w.authenticator.value.accepts(t.user, t.password)
                        && t.user in w.config.adminUsers
  {
    PlayInv(config, authenticator, steps);
    var s := Play(Start(config, authenticator), steps).value;
    assert Justified(s, s.issued[k]);
  }

  /// What a task does when it runs alone

  // Authentication may be enabled only with a backend whose settings are there.
  lemma RuleExactly(c: Config)
    ensures c.AuthRule() <==>
            || !c.authEnabled
            || (c.backend.Simple? && c.backend.userConfigFile != "")
            || (c.backend.Pam? && c.backend.service != "")
            || (c.backend.Ldap? && "" !in [c.backend.url, c.backend.baseDn, c.backend.userFilter])
            || (c.backend.Database? && "" !in [c.backend.url, c.backend.query])
  {
    match c.backend
    case Ldap(url, baseDn, userFilter) =>
      var texts := [url, baseDn, userFilter];
      assert texts[0] == url && texts[1] == baseDn && texts[2] == userFilter;
    case Database(url, query) =>
      var texts := [url, query];
      assert texts[0] == url && texts[1] == query;
    case _ =>
  }

  // The state with one more task.
  function With(s: System, t: Task): System {
    s.(tasks := s.tasks + [t])
  }

  // One step of the last task, which takes it from `a` to `b` and the rest to `t`.
  ghost predicate Goes(s: System, a: Task, step: Step, t: System, b: Task) {
    Enabled(With(s, a), step) && Apply(With(s, a), step) == With(t, b)
  }

  lemma Then(s: System, steps: seq<Step>, n: nat, t: System, a: Task, u: System, b: Task)
    requires n < |steps| && Play(s, steps[..n]) == Some(With(t, a)) && Goes(t, a, steps[n], u, b)
    ensures Play(s, steps[..n+1]) == Some(With(u, b))
  {
    hide Enabled, Apply, With;
    assert steps[..n+1][..n] == steps[..n] && steps[..n+1][n] == steps[n];
  }

  lemma Replaced(tasks: seq<Task>, a: Task, b: Task)
    ensures (tasks + [a])[|tasks| := b] == tasks + [b] && (tasks + [a])[|tasks|] == a
    ensures NoneWriting(tasks) && !a.Writing() ==> NoneWriting(tasks + [a])
    ensures NoneHolding(tasks) && !a.Writing() && !a.Reading() ==> NoneHolding(tasks + [a])
  {
  }

  lemma Starts(s: System, steps: seq<Step>, t: Task)
    requires steps != []
    requires (steps[0], t) in {(StartHandler, HandlerWaits), (StartReload, ReloadWaits)}
             || (steps[0].StartLogin? && t == LoginWaits(steps[0].user, steps[0].password))
    ensures Play(s, steps[..1]) == Some(With(s, t))
  {
    assert steps[..1][..0] == [] && steps[..1] == [steps[0]];
  }

  lemma HandlerGoes(s: System)
    requires NoneWriting(s.tasks)
    ensures var i := |s.tasks|;
            && Goes(s, HandlerWaits, Lock(i), s, HandlerLocked)
            && Goes(s, HandlerLocked, CloneConfig(i), s, HandlerHasConfig(s.config))
    ensures var i, c, a := |s.tasks|, s.config, s.authenticator;
            && Goes(s, HandlerHasConfig(c), CloneAuthenticator(i), s, HandlerHasBoth(c, a))
            && Goes(s, HandlerHasBoth(c, a), Unlock(i), s, Handling(c, a))
  {
    var c, a := s.config, s.authenticator;
    Replaced(s.tasks, HandlerWaits, HandlerLocked);
    Replaced(s.tasks, HandlerLocked, HandlerHasConfig(c));
    Replaced(s.tasks, HandlerHasConfig(c), HandlerHasBoth(c, a));
    Replaced(s.tasks, HandlerHasBoth(c, a), Handling(c, a));
  }

  // A handler works with the live pair.
  lemma HandlerExactly(s: System)
    requires NoneWriting(s.tasks)
    ensures var i := |s.tasks|;
            Play(s, [StartHandler, Lock(i), CloneConfig(i), CloneAuthenticator(i), Unlock(i)])
            == Some(With(s, Handling(s.config, s.authenticator)))
  {
    hide Play, Goes, With;
    var i, c, a := |s.tasks|, s.config, s.authenticator;
    var steps := [StartHandler, Lock(i), CloneConfig(i), CloneAuthenticator(i), Unlock(i)];
    HandlerGoes(s);
    Starts(s, steps, HandlerWaits);
    Then(s, steps, 1, s, HandlerWaits, s, HandlerLocked);
    Then(s, steps, 2, s, HandlerLocked, s, HandlerHasConfig(c));
    Then(s, steps, 3, s, HandlerHasConfig(c), s, HandlerHasBoth(c, a));
    Then(s, steps, 4, s, HandlerHasBoth(c, a), s, Handling(c, a));
    assert steps[..5] == steps;
  }

  function LoginSteps(i: nat, user: string, password: string): seq<Step> {
    [StartLogin(user, password), Lock(i), CloneAuthenticator(i), CloneConfig(i), Unlock(i), Authenticate(i)]
  }

  lemma LoginGoes(s: System, user: string, password: string)
    requires NoneWriting(s.tasks)
    ensures var i, a := |s.tasks|, s.authenticator;
            && Goes(s, LoginWaits(user, password), Lock(i), s, LoginLocked(user, password))
            && Goes(s, LoginLocked(user, password), CloneAuthenticator(i), s, LoginHasAuth(user, password, a))
    ensures var i, a, c := |s.tasks|, s.authenticator, s.config;
            && Goes(s, LoginHasAuth(user, password, a), CloneConfig(i), s, LoginHasBoth(user, password, a, c))
            && Goes(s, LoginHasBoth(user, password, a, c), Unlock(i), s, LoginChecks(user, password, a, c))
  {
    var c, a := s.config, s.authenticator;
    Replaced(s.tasks, LoginWaits(user, password), LoginLocked(user, password));
    Replaced(s.tasks, LoginLocked(user, password), LoginHasAuth(user, password, a));
    Replaced(s.tasks, LoginHasAuth(user, password, a), LoginHasBoth(user, password, a, c));
    Replaced(s.tasks, LoginHasBoth(user, password, a, c), LoginChecks(user, password, a, c));
  }

  // What a login leaves behind: one token for an administrator whom the live authenticator
  // accepts with that password, none for anybody else.
  function AfterLogin(s: System, user: string, password: string): System {
    if s.authenticator.Some? && s.authenticator.value.accepts(user, password) && user in s.config.adminUsers
    then s.(issued := s.issued + [Issue(user, password)]) else s
  }

  lemma AuthenticateGoes(s: System, user: string, password: string)
    ensures Goes(s, LoginChecks(user, password, s.authenticator, s.config), Authenticate(|s.tasks|),
                 AfterLogin(s, user, password), Over)
  {
    Replaced(s.tasks, LoginChecks(user, password, s.authenticator, s.config), Over);
  }

  // A login issues exactly that token, and nothing else changes.
  lemma LoginExactly(s: System, user: string, password: string)
    requires NoneWriting(s.tasks)
    ensures Play(s, LoginSteps(|s.tasks|, user, password)) == Some(With(AfterLogin(s, user, password), Over))
  {
    hide Play, Goes, With, AfterLogin;
    var i, c, a := |s.tasks|, s.config, s.authenticator;
    var steps := LoginSteps(i, user, password);
    LoginGoes(s, user, password);
    AuthenticateGoes(s, user, password);
    Starts(s, steps, LoginWaits(user, password));
    Then(s, steps, 1, s, LoginWaits(user, password), s, LoginLocked(user, password));
    Then(s, steps, 2, s, LoginLocked(user, password), s, LoginHasAuth(user, password, a));
    Then(s, steps, 3, s, LoginHasAuth(user, password, a), s, LoginHasBoth(user, password, a, c));
    Then(s, steps, 4, s, LoginHasBoth(user, password, a, c), s, LoginChecks(user, password, a, c));
    Then(s, steps, 5, s, LoginChecks(user, password, a, c), AfterLogin(s, user, password), Over);
    assert steps[..6] == steps;
  }

  function ReloadSteps(i: nat, loaded: Option<Config>, built: Option<Accepts>): seq<Step> {
    [StartReload, Lock(i), CloneConfig(i), Unlock(i), Load(i, loaded), Build(i, built),
     Lock(i), WriteConfig(i), WriteAuthenticator(i), Unlock(i)]
  }

  lemma SnapshotGoes(s: System)
    requires NoneHolding(s.tasks)
    ensures var i := |s.tasks|;
            && Goes(s, ReloadWaits, Lock(i), s, ReloadLocked)
            && Goes(s, ReloadLocked, CloneConfig(i), s, ReloadHasSnapshot(s.config))
            && Goes(s, ReloadHasSnapshot(s.config), Unlock(i), s, ReloadLoads(s.config))
  {
    Replaced(s.tasks, ReloadWaits, ReloadLocked);
    Replaced(s.tasks, ReloadLocked, ReloadHasSnapshot(s.config));
    Replaced(s.tasks, ReloadHasSnapshot(s.config), ReloadLoads(s.config));
  }

  lemma LoadGoes(s: System, loaded: Option<Config>)
    ensures var fits := loaded.Some? && loaded.value.AuthRule() && loaded.value.bind == s.config.bind;
            Goes(s, ReloadLoads(s.config), Load(|s.tasks|, loaded), s,
                 if fits then ReloadBuilds(loaded.value) else Over)
  {
    hide Config.AuthRule;
    var fits := loaded.Some? && loaded.value.AuthRule() && loaded.value.bind == s.config.bind;
    Replaced(s.tasks, ReloadLoads(s.config), if fits then ReloadBuilds(loaded.value) else Over);
  }

  lemma BuildGoes(s: System, c: Config, built: Option<Accepts>)
    requires NoneHolding(s.tasks)
    ensures var i, needed := |s.tasks|, c.authEnabled && c.backend != NoBackend;
            if needed && built.None? then Goes(s, ReloadBuilds(c), Build(i, built), s, Over)
            else
              var a := if needed then Some(Authenticator(c.backend, built.value)) else None;
              && Goes(s, ReloadBuilds(c), Build(i, built), s, ReloadReady(c, a))
              && Goes(s, ReloadReady(c, a), Lock(i), s, ReloadWriting(c, a))
  {
    Replaced(s.tasks, ReloadBuilds(c), Over);
    match CreateAuthenticator(c, built)
    case Ok(a) =>
      Replaced(s.tasks, ReloadBuilds(c), ReloadReady(c, a));
      Replaced(s.tasks, ReloadReady(c, a), ReloadWriting(c, a));
    case Err(_) =>
  }

  lemma WriteGoes(s: System, c: Config, a: Option<Authenticator>)
    ensures var i, half := |s.tasks|, s.(config := c);
            var whole := half.(authenticator := a, writes := s.writes + [Installed(c, a)]);
            && Goes(s, ReloadWriting(c, a), WriteConfig(i), half, ReloadWroteConfig(c, a))
            && Goes(half, ReloadWroteConfig(c, a), WriteAuthenticator(i), whole, ReloadWroteBoth(c, a))
            && Goes(whole, ReloadWroteBoth(c, a), Unlock(i), whole, Over)
  {
    Replaced(s.tasks, ReloadWriting(c, a), ReloadWroteConfig(c, a));
    Replaced(s.tasks, ReloadWroteConfig(c, a), ReloadWroteBoth(c, a));
    Replaced(s.tasks, ReloadWroteBoth(c, a), Over);
  }

  lemma ReloadReadsFile(s: System, loaded: Option<Config>, built: Option<Accepts>)
    requires NoneHolding(s.tasks)
    ensures var fits := loaded.Some? && loaded.value.AuthRule() && loaded.value.bind == s.config.bind;
            Play(s, ReloadSteps(|s.tasks|, loaded, built)[..5])
            == Some(With(s, if fits then ReloadBuilds(loaded.value) else Over))
  {
    hide Play, Goes, With, Config.AuthRule;
    var c := s.config;
    var steps := ReloadSteps(|s.tasks|, loaded, built);
    var fits := loaded.Some? && loaded.value.AuthRule() && loaded.value.bind == c.bind;
    SnapshotGoes(s);
    LoadGoes(s, loaded);
    Starts(s, steps, ReloadWaits);
    Then(s, steps, 1, s, ReloadWaits, s, ReloadLocked);
    Then(s, steps, 2, s, ReloadLocked, s, ReloadHasSnapshot(c));
    Then(s, steps, 3, s, ReloadHasSnapshot(c), s, ReloadLoads(c));
    Then(s, steps, 4, s, ReloadLoads(c), s, if fits then ReloadBuilds(loaded.value) else Over);
  }

  // The second half of a reload: what was built is installed.
  lemma ReloadInstalls(s: System, c: Config, built: Option<Accepts>)
    requires NoneHolding(s.tasks) && (c.authEnabled && c.backend != NoBackend ==> built.Some?)
    requires Play(s, ReloadSteps(|s.tasks|, Some(c), built)[..5]) == Some(With(s, ReloadBuilds(c)))
    ensures var needed := c.authEnabled && c.backend != NoBackend;
            var a := if needed then Some(Authenticator(c.backend, built.value)) else None;
            Play(s, ReloadSteps(|s.tasks|, Some(c), built)) ==
              Some(With(s.(config := c, authenticator := a, writes := s.writes + [Installed(c, a)]), Over))
  {
    hide Play, Goes, With;
    var needed := c.authEnabled && c.backend != NoBackend;
    var a := if needed then Some(Authenticator(c.backend, built.value)) else None;
    var steps := ReloadSteps(|s.tasks|, Some(c), built);
    var half := s.(config := c);
    var whole := half.(authenticator := a, writes := s.writes + [Installed(c, a)]);
    BuildGoes(s, c, built);
    WriteGoes(s, c, a);
    Then(s, steps, 5, s, ReloadBuilds(c), s, ReloadReady(c, a));
    Then(s, steps, 6, s, ReloadReady(c, a), s, ReloadWriting(c, a));
    Then(s, steps, 7, s, ReloadWriting(c, a), half, ReloadWroteConfig(c, a));
    Then(s, steps, 8, half, ReloadWroteConfig(c, a), whole, ReloadWroteBoth(c, a));
    Then(s, steps, 9, whole, ReloadWroteBoth(c, a), whole, Over);
    assert steps[..10] == steps;
  }

  // A reload that finds the lock free: it installs what the file holds, with a new
  // authenticator for it when authentication is enabled, exactly when the file can be
  // read, meets the authentication rule, keeps the five bind fields of the live
  // configuration, and its authenticator can be built; otherwise it leaves everything
  // as it is.
  lemma ReloadExactly(s: System, loaded: Option<Config>, built: Option<Accepts>)
    requires NoneHolding(s.tasks)
    ensures var steps := ReloadSteps(|s.tasks|, loaded, built);
            if loaded.None? || !loaded.value.AuthRule() || loaded.value.bind != s.config.bind then
              Play(s, steps[..5]) == Some(With(s, Over))
            else
              var c := loaded.value;
              var needed := c.authEnabled && c.backend != NoBackend;
              if needed && built.None? then Play(s, steps[..6]) == Some(With(s, Over))
              else
                var a := if needed then Some(Authenticator(c.backend, built.value)) else None;
                Play(s, steps) ==
                  Some(With(s.(config := c, authenticator := a, writes := s.writes + [Installed(c, a)]), Over))
  {
    hide Play, Goes, With, Config.AuthRule;
    ReloadReadsFile(s, loaded, built);
    if loaded.Some? && loaded.value.AuthRule() && loaded.value.bind == s.config.bind {
      var c, steps := loaded.value, ReloadSteps(|s.tasks|, loaded, built);
      if c.authEnabled && c.backend != NoBackend && built.None? {
        BuildGoes(s, c, built);
        Then(s, steps, 5, s, ReloadBuilds(c), s, Over);
      } else {
        ReloadInstalls(s, c, built);
      }
    }
  }

  // Nobody waits forever: while some task is not over, some task can go on.
  lemma SomeTaskCanGoOn(s: System, i: nat)
    requires i < |s.tasks| && !s.tasks[i].Over? && !s.tasks[i].Handling?
    ensures exists step :: Enabled(s, step) && !step.StartHandler? && !step.StartLogin? && !step.StartReload?
  {
    if k :| 0 <= k < |s.tasks| && (s.tasks[k].Reading() || s.tasks[k].Writing()) {
      HolderGoesOn(s, k);
    } else {
      var step := match s.tasks[i]
        case LoginChecks(_, _, _, _) => Authenticate(i)
        case ReloadLoads(_) => Load(i, None)
        case ReloadBuilds(_) => Build(i, None)
        case _ => Lock(i);
      assert Enabled(s, step);
    }
  }

  lemma HolderGoesOn(s: System, k: nat)
    requires k < |s.tasks| && (s.tasks[k].Reading() || s.tasks[k].Writing())
    ensures exists step :: Enabled(s, step) && !step.StartHandler? && !step.StartLogin? && !step.StartReload?
  {
    var t := s.tasks[k];
    var step :=
      if t.HandlerLocked? || t.LoginHasAuth? || t.ReloadLocked? then CloneConfig(k)
      else if t.HandlerHasConfig? || t.LoginLocked? then CloneAuthenticator(k)
      else if t.ReloadWriting? then WriteConfig(k)
      else if t.ReloadWroteConfig? then WriteAuthenticator(k)
      else Unlock(k);
    assert Enabled(s, step);
  }
}
