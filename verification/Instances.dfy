/**
  The environment of one instance: how a row's roots and identity are resolved,
  and what of the caller's environment reaches it.
 */
module Instances {
  import opened Options

  type Environment = map<string, string>

  const INSTANCE: string := "YOLOMUX_INSTANCE"
  const ROOT: string := "YOLOMUX_ROOT"
  const PLAN_FILE: string := "YOLOMUX_ROW_PLAN_FILE"
  const EARLY_PORT: string := "YOLOMUX_EARLY_INSTANCE_PORT"
  const MANAGED_PORT: string := "YOLOMUX_MANAGED_INSTANCE_PORT"
  const CACHE_PREFIX: string := "YOLOMUX_GENERATED_PYTHONPYCACHEPREFIX"
  const TMPDIR: string := "TMPDIR"

  const ROOT_KEYS: seq<string> := ["YOLOMUX_RUNTIME_DIR", "YOLOMUX_CONFIG_DIR", "YOLOMUX_STATE_DIR", "YOLOMUX_CACHE_DIR"]
  const XDG_KEYS: seq<string> := ["XDG_CONFIG_HOME", "XDG_STATE_HOME", "XDG_CACHE_HOME", "XDG_RUNTIME_DIR"]
  const PRODUCT_ROOT_KEYS: seq<string> := [
    "YOLOMUX_ROOT", "YOLOMUX_CONFIG_DIR", "YOLOMUX_STATE_DIR", "YOLOMUX_CACHE_DIR", "YOLOMUX_RUNTIME_DIR",
    "YOLOMUX_CODEX_HOME", "CODEX_HOME", "YOLOMUX_HOST_ARTIFACT_DIR", "YOLOMUX_START_LOCK_DIR", "YOLOMUX_LOG_DIR",
    "YOLOMUX_CA_DIR", "YOLOMUX_TOOL_LOCK_PATH", "PYTHONPYCACHEPREFIX", "TMPDIR"]

  /** Ambient settings that a caller's own root overrides. */
  const ROOTED_IGNORED: seq<string> := ["CODEX_HOME"] + XDG_KEYS

  /** Ambient settings that an automatic root overrides. */
  const AUTO_ROOT_IGNORED: seq<string> :=
    ROOTED_IGNORED + ["YOLOMUX_HOST_ARTIFACT_DIR", "PYTHONPYCACHEPREFIX", CACHE_PREFIX]

  /** Everything about instances and roots that an environment may carry. */
  const INHERITED: seq<string> :=
    [INSTANCE, EARLY_PORT, MANAGED_PORT] + PRODUCT_ROOT_KEYS + [CACHE_PREFIX] + XDG_KEYS + [PLAN_FILE]

  // ----------------------------------------------------------------------
  // Identities
  // ----------------------------------------------------------------------

  datatype Identity = Identity(port: int, managed: bool)

  function Digit(d: nat): char
    requires d < 10
  {
    "0123456789"[d]
  }

  function DigitValue(c: char): Option<nat> {
    if '0' <= c <= '9' then Some((c - '0') as nat) else None
  }

  function Digits(n: nat): string {
    if n < 10 then [Digit(n)] else Digits(n / 10) + [Digit(n % 10)]
  }

  function Number(port: int): string {
    if port < 0 then "-" + Digits(-port) else Digits(port)
  }

  /** Decimal digits as a number; nothing where a character is no digit. */
  function ReadDigits(s: string): Option<nat> {
    if s == [] then None
    else
      var last := DigitValue(s[|s| - 1]);
      if last.None? then None
      else if |s| == 1 then last
      else
        var rest := ReadDigits(s[..|s| - 1]);
        if rest.None? then None else Some(10 * rest.value + last.value)
  }

  function ReadNumber(s: string): Option<int> {
    if s != [] && s[0] == '-' then
      var n := ReadDigits(s[1..]);
      if n.None? then None else Some(0 - n.value as int)
    else
      var n := ReadDigits(s);
      if n.None? then None else Some(n.value)
  }

  function FormatInstance(id: Identity): string {
    Number(id.port) + ":" + if id.managed then "managed" else "shared"
  }

  /** The place of the first colon. */
  function Colon(s: string): Option<nat> {
    if s == [] then None
    else if s[0] == ':' then Some(0)
    else
      var k := Colon(s[1..]);
      if k.None? then None else Some(k.value + 1)
  }

  lemma {:induction false} ColonIs(s: string)
    ensures Colon(s).Some? ==> Colon(s).value < |s| && s[Colon(s).value] == ':'
  {
    if s != [] && s[0] != ':' {
      ColonIs(s[1..]);
    }
  }

  function Get(env: Environment, key: string): string {
    if key in env then env[key] else ""
  }

  function ParseInstance(env: Environment): Option<Identity> {
    var raw := Get(env, INSTANCE);
    ColonIs(raw);
    var at := Colon(raw);
    if at.None? then None
    else
      var mode := raw[at.value + 1..];
      var port := ReadNumber(raw[..at.value]);
      if (mode != "managed" && mode != "shared") || port.None? then None
      else Some(Identity(port.value, mode == "managed"))
  }

  lemma {:induction false} DigitsRead(n: nat)
    ensures ReadDigits(Digits(n)) == Some(n)
    ensures |Digits(n)| > 0 && forall k :: 0 <= k < |Digits(n)| ==> '0' <= Digits(n)[k] <= '9'
  {
    hide ReadDigits, Digit;
    DigitReads(n % 10);
    if n < 10 {
      ReadOne(Digit(n));
    } else {
      DigitsRead(n / 10);
      ReadMore(Digits(n / 10), Digit(n % 10));
    }
  }

  lemma DigitReads(d: nat)
    requires d < 10
    ensures '0' <= Digit(d) <= '9' && DigitValue(Digit(d)) == Some(d)
  {
    assert Digit(d) == ['0', '1', '2', '3', '4', '5', '6', '7', '8', '9'][d];
  }

  lemma ReadOne(c: char)
    ensures ReadDigits([c]) == DigitValue(c)
  {
  }

  lemma ReadMore(s: string, c: char)
    requires s != [] && ReadDigits(s).Some? && DigitValue(c).Some?
    ensures ReadDigits(s + [c]) == Some(10 * ReadDigits(s).value + DigitValue(c).value)
  {
    assert (s + [c])[..|s|] == s;
  }

  lemma NumberReads(port: int)
    ensures ReadNumber(Number(port)) == Some(port)
    ensures forall k :: 0 <= k < |Number(port)| ==> Number(port)[k] != ':'
  {
    DigitsRead(if port < 0 then -port else port);
    if port < 0 {
      assert Number(port)[1..] == Digits(-port);
    }
  }

  lemma {:induction false} ColonAfter(a: string, b: string)
    requires forall k :: 0 <= k < |a| ==> a[k] != ':'
    ensures Colon(a + ":" + b) == Some(|a|)
  {
    var s := a + ":" + b;
    if a == [] {
      assert s[0] == ':';
    } else {
      ColonAfter(a[1..], b);
      assert s[1..] == a[1..] + ":" + b;
    }
  }

  /** What is written as an identity is read as that identity. */
  lemma InstanceRoundTrip(id: Identity, env: Environment)
    requires INSTANCE in env && env[INSTANCE] == FormatInstance(id)
    ensures ParseInstance(env) == Some(id)
  {
    var mode := if id.managed then "managed" else "shared";
    NumberReads(id.port);
    ColonAfter(Number(id.port), mode);
    var raw := FormatInstance(id);
    assert raw[..|Number(id.port)|] == Number(id.port);
    assert raw[|Number(id.port)| + 1..] == mode;
  }

  /** What is read as an identity is a number, a colon, and one of two words that says whether it is managed. */
  lemma ReadIdentity(env: Environment) returns (k: nat)
    requires ParseInstance(env).Some?
    ensures INSTANCE in env && k <= |env[INSTANCE]| && ReadNumber(env[INSTANCE][..k]) == Some(ParseInstance(env).value.port)
    ensures env[INSTANCE][k..] == if ParseInstance(env).value.managed then ":managed" else ":shared"
  {
    var raw := Get(env, INSTANCE);
    ColonIs(raw);
    k := Colon(raw).value;
    assert raw[k..] == [raw[k]] + raw[k + 1..];
  }

  predicate IsManagedInstancePort(port: int, env: Environment) {
    var id := ParseInstance(env);
    id.Some? && id.value.managed && id.value.port == port
  }

  // ----------------------------------------------------------------------
  // Resolving
  // ----------------------------------------------------------------------

  /** A resolution, the reason why there is none, or the error of a path that is raised as it is. */
  datatype Resolution = Resolved(assign: Environment) | Refused(error: string) | Raised(error: string)

  /**
    What the host decides: whether an environment's roots are valid, where
    temporary files go, the directory of one port below that, and the default port.
   */
  datatype Host = Host(invalid: Environment -> Option<string>, tempDir: Environment -> Option<string>,
                       rowRoot: (string, int) -> string, defaultPort: int)

  predicate HasExplicitRoot(env: Environment) {
    Get(env, ROOT) != "" || exists k :: 0 <= k < |ROOT_KEYS| && Get(env, ROOT_KEYS[k]) != ""
  }

  function Without(env: Environment, keys: seq<string>): Environment {
    map k | k in env && k !in keys :: env[k]
  }

  function ResolveInstance(host: Host, port: Option<int>, env: Environment): Resolution {
    var explicit := HasExplicitRoot(env);
    var auto := !explicit && port.Some? && port.value != host.defaultPort;
    var validated := if auto then Without(env, AUTO_ROOT_IGNORED) else env;
    var error := host.invalid(validated);
    if error.Some? then Refused(error.value)
    else if !auto then Resolved(map[])
    else
      var base := host.tempDir(env);
      if base.None? then Raised("TMPDIR")
      else
        var assign := map[ROOT := host.rowRoot(base.value, port.value),
                          INSTANCE := FormatInstance(Identity(port.value, true))];
        var again := host.invalid(validated + assign);
        if again.Some? then Refused(again.value) else Resolved(assign)
  }

  datatype Plan = Plan(unset: seq<string>, assign: Environment)

  datatype Planned = Planned(plan: Plan) | NoPlan(error: string)

  function ResolveRowPlan(host: Host, port: Option<int>, env: Environment): Planned {
    match ResolveInstance(host, port, Without(env, INHERITED))
    case Resolved(assign) => Planned(Plan(INHERITED, assign))
    case Refused(error) => NoPlan(error)
    case Raised(error) => NoPlan(error)
  }

  function ApplyRowPlan(plan: Plan, env: Environment): Environment {
    Without(env, plan.unset) + plan.assign
  }

  function CleanRowEnvironment(host: Host, port: Option<int>, env: Environment): Option<Environment> {
    var r := ResolveRowPlan(host, port, env);
    if r.NoPlan? then None else Some(ApplyRowPlan(r.plan, env))
  }

  // ----------------------------------------------------------------------
  // A row's environment does not leak
  // ----------------------------------------------------------------------

  /** The environments are the same but for what they say of instances and roots. */
  predicate AgreeOutside(a: Environment, b: Environment) {
    Without(a, INHERITED) == Without(b, INHERITED)
  }

  lemma InheritedHas(key: string)
    requires key == ROOT || key == INSTANCE
    ensures key in INHERITED
  {
    if key == ROOT {
      assert INHERITED[3] == PRODUCT_ROOT_KEYS[0] == ROOT;
    } else {
      assert INHERITED[0] == INSTANCE;
    }
  }

  /** A plan says nothing but a root and an identity. */
  lemma AssignedKeys(host: Host, port: Option<int>, env: Environment, key: string)
    requires ResolveInstance(host, port, env).Resolved? && key in ResolveInstance(host, port, env).assign
    ensures key == ROOT || key == INSTANCE
  {
  }

  /** Whatever the caller's environment says of instances and roots, the row's plan is the same. */
  lemma PlansDoNotLeak(host: Host, port: Option<int>, a: Environment, b: Environment)
    requires AgreeOutside(a, b)
    ensures ResolveRowPlan(host, port, a) == ResolveRowPlan(host, port, b)
    ensures CleanRowEnvironment(host, port, a) == CleanRowEnvironment(host, port, b)
  {
  }

  lemma CleanedAgrees(host: Host, port: Option<int>, env: Environment)
    requires CleanRowEnvironment(host, port, env).Some?
    ensures AgreeOutside(CleanRowEnvironment(host, port, env).value, env)
  {
    hide INHERITED, ResolveInstance;
    var clean := CleanRowEnvironment(host, port, env).value;
    var assign := ResolveRowPlan(host, port, env).plan.assign;
    forall key | key in assign ensures key in INHERITED {
      AssignedKeys(host, port, Without(env, INHERITED), key);
      InheritedHas(key);
    }
    assert forall key :: key in Without(clean, INHERITED) <==> key in Without(env, INHERITED);
  }

  /** Cleaning what was cleaned changes nothing. */
  lemma CleaningIsIdempotent(host: Host, port: Option<int>, env: Environment)
    requires CleanRowEnvironment(host, port, env).Some?
    ensures CleanRowEnvironment(host, port, CleanRowEnvironment(host, port, env).value) == CleanRowEnvironment(host, port, env)
  {
    hide CleanRowEnvironment, AgreeOutside;
    CleanedAgrees(host, port, env);
    PlansDoNotLeak(host, port, CleanRowEnvironment(host, port, env).value, env);
  }

  // ----------------------------------------------------------------------
  // Launching directly
  // ----------------------------------------------------------------------

  /** An environment after a resolution was applied to it: what the root overrides goes, what was resolved comes. */
  function Applied(env: Environment, assign: Environment): Environment {
    (if Get(assign, ROOT) != "" then Without(env, AUTO_ROOT_IGNORED)
     else if Get(env, ROOT) != "" then Without(env, ROOTED_IGNORED)
     else env) + assign
  }

  /** The environment of a process, changed in place. */
  class ProcessEnvironment {
    var values: Environment

    constructor (values: Environment)
      ensures this.values == values
    {
      this.values := values;
    }

    /** Takes settings out, one after the other. */
    method PopAll(keys: seq<string>)
      modifies this
      ensures values == Without(old(values), keys)
    {
      var i := 0;
      while i < |keys|
        invariant i <= |keys| && values == Without(old(values), keys[..i])
      {
        assert keys[..i + 1] == keys[..i] + [keys[i]];
        values := values - {keys[i]};
        i := i + 1;
      }
      assert keys[..i] == keys;
    }

    /** Resolves a port against this environment and applies the outcome to it; leaves it alone where there is none. */
    method ApplyInstanceResolution(host: Host, port: Option<int>) returns (r: Resolution)
      modifies this
      ensures r == ResolveInstance(host, port, old(values))
      ensures values == if r.Resolved? then Applied(old(values), r.assign) else old(values)
    {
      hide ResolveInstance, AUTO_ROOT_IGNORED, ROOTED_IGNORED, Without;
      r := ResolveInstance(host, port, values);
      if !r.Resolved? {
        return;
      }
      if Get(r.assign, ROOT) != "" {
        PopAll(AUTO_ROOT_IGNORED);
      } else if Get(values, ROOT) != "" {
        PopAll(ROOTED_IGNORED);
      }
      values := values + r.assign;
    }
  }

  const STALE: seq<string> := [INSTANCE, EARLY_PORT, MANAGED_PORT, PLAN_FILE]

  function Kept(values: Environment): Environment {
    map k | k in values && k in INHERITED && values[k] != "" :: values[k]
  }

  function DirectPlan(host: Host, port: Option<int>, env: Environment): Planned {
    if port.Some? && port.value != host.defaultPort && !HasExplicitRoot(env) then ResolveRowPlan(host, port, env)
    else
      var values := Without(env, STALE);
      match ResolveInstance(host, port, values)
      case Resolved(assign) => Planned(Plan(INHERITED, Kept(Applied(values, assign))))
      case Refused(error) => NoPlan(error)
      case Raised(error) => NoPlan(error)
  }

  /** The plan of a direct launch: a row's plan where the port gets a root of its own, else the caller's own roots. */
  method ResolveDirectLaunchPlan(host: Host, port: Option<int>, env: Environment) returns (r: Planned)
    ensures r == DirectPlan(host, port, env)
  {
    hide ResolveInstance, ResolveRowPlan, HasExplicitRoot, Applied, Kept, INHERITED;
    if port.Some? && port.value != host.defaultPort && !HasExplicitRoot(env) {
      return ResolveRowPlan(host, port, env);
    }
    var target := new ProcessEnvironment(env);
    target.PopAll(STALE);
    var resolution := target.ApplyInstanceResolution(host, port);
    match resolution
    case Resolved(assign) => r := Planned(Plan(INHERITED, Kept(target.values)));
    case Refused(error) => r := NoPlan(error);
    case Raised(error) => r := NoPlan(error);
  }

  lemma RootKeyIs(k: nat)
    requires k < |ROOT_KEYS|
    ensures ROOT_KEYS[k] in INHERITED && ROOT_KEYS[k] !in STALE && ROOT_KEYS[k] !in ROOTED_IGNORED
    ensures ROOT_KEYS[k] != ROOT && ROOT_KEYS[k] != INSTANCE
  {
    assert ROOT_KEYS[k] == PRODUCT_ROOT_KEYS[if k == 0 then 4 else k];
    assert INHERITED[3 + if k == 0 then 4 else k] == ROOT_KEYS[k];
  }

  /** Without anything inherited, no root is set. */
  lemma StrippedHasNoRoot(env: Environment)
    ensures !HasExplicitRoot(Without(env, INHERITED))
  {
    hide INHERITED, ROOT_KEYS;
    InheritedHas(ROOT);
    forall k | 0 <= k < |ROOT_KEYS| ensures Get(Without(env, INHERITED), ROOT_KEYS[k]) == "" {
      RootKeyIs(k);
    }
  }

  lemma StaleKeepsRoots(env: Environment)
    ensures HasExplicitRoot(Without(env, STALE)) == HasExplicitRoot(env) && Get(Without(env, STALE), INSTANCE) == ""
    ensures Get(Without(env, STALE), ROOT) == Get(env, ROOT)
  {
    hide ROOT_KEYS;
    assert ROOT !in STALE && STALE[0] == INSTANCE;
    forall k | 0 <= k < |ROOT_KEYS| ensures Get(Without(env, STALE), ROOT_KEYS[k]) == Get(env, ROOT_KEYS[k]) {
      RootKeyIs(k);
    }
  }

  lemma NoIdentity(env: Environment, port: int)
    requires Get(env, INSTANCE) == ""
    ensures !IsManagedInstancePort(port, env)
  {
  }

  /** A row's plan gives its own port, and no other, a managed identity. */
  lemma RowIsManaged(host: Host, port: int, env: Environment, p: int)
    requires port != host.defaultPort && ResolveRowPlan(host, Some(port), env).Planned?
    ensures IsManagedInstancePort(p, ApplyRowPlan(ResolveRowPlan(host, Some(port), env).plan, env)) <==> p == port
  {
    hide INHERITED, HasExplicitRoot, ParseInstance, FormatInstance;
    StrippedHasNoRoot(env);
    var child := ApplyRowPlan(ResolveRowPlan(host, Some(port), env).plan, env);
    InstanceRoundTrip(Identity(port, true), child);
  }

  /** What an automatic root overrides is stripped from a row anyway. */
  lemma IgnoredAreInherited(env: Environment)
    ensures Without(Without(env, INHERITED), AUTO_ROOT_IGNORED) == Without(env, INHERITED)
  {
    assert AUTO_ROOT_IGNORED == ["CODEX_HOME"] + XDG_KEYS + ["YOLOMUX_HOST_ARTIFACT_DIR", "PYTHONPYCACHEPREFIX", CACHE_PREFIX];
    assert PRODUCT_ROOT_KEYS[6] == "CODEX_HOME" && PRODUCT_ROOT_KEYS[7] == "YOLOMUX_HOST_ARTIFACT_DIR"
        && PRODUCT_ROOT_KEYS[12] == "PYTHONPYCACHEPREFIX";
    forall key | key in AUTO_ROOT_IGNORED ensures key in INHERITED {
      assert forall k :: k in PRODUCT_ROOT_KEYS ==> k in INHERITED;
      assert forall k :: k in XDG_KEYS ==> k in INHERITED;
    }
  }

  /**
    A port that is not the default gets a row's plan exactly if the stripped environment is valid, there is a place for
    temporary files, and it is valid with the port's own directory there as root; and then that is its environment.
   */
  lemma RowHasItsOwnRoot(host: Host, port: int, env: Environment)
    requires port != host.defaultPort
    ensures var stripped := Without(env, INHERITED);
            match host.tempDir(stripped)
            case None => ResolveRowPlan(host, Some(port), env).NoPlan?
            case Some(base) =>
              var child := stripped[ROOT := host.rowRoot(base, port)][INSTANCE := Number(port) + ":managed"];
              if host.invalid(stripped).None? && host.invalid(child).None?
              then CleanRowEnvironment(host, Some(port), env) == Some(child)
              else CleanRowEnvironment(host, Some(port), env) == None
  {
    hide INHERITED, HasExplicitRoot;
    StrippedHasNoRoot(env);
    IgnoredAreInherited(env);
    var stripped := Without(env, INHERITED);
    if host.tempDir(stripped).Some? {
      var root := host.rowRoot(host.tempDir(stripped).value, port);
      assert FormatInstance(Identity(port, true)) == Number(port) + ":managed";
      assert stripped + map[ROOT := root, INSTANCE := Number(port) + ":managed"]
          == stripped[ROOT := root][INSTANCE := Number(port) + ":managed"];
    }
  }

  /** The environment that is validated for an automatic root: without what such a root overrides. */
  predicate Seen(env: Environment, key: string) {
    key in env && key !in {"CODEX_HOME", "XDG_CONFIG_HOME", "XDG_STATE_HOME", "XDG_CACHE_HOME", "XDG_RUNTIME_DIR",
                           "YOLOMUX_HOST_ARTIFACT_DIR", "PYTHONPYCACHEPREFIX", "YOLOMUX_GENERATED_PYTHONPYCACHEPREFIX"}
  }

  /** Against an environment that was not stripped, a port gets its own root exactly if what is left of that is valid before and after. */
  lemma AutoRootExactly(host: Host, port: int, env: Environment)
    requires port != host.defaultPort && !HasExplicitRoot(env)
    ensures var seen := map key | key in env && Seen(env, key) :: env[key];
            match host.tempDir(env)
            case None => !ResolveInstance(host, Some(port), env).Resolved?
            case Some(base) =>
              var assign := map[ROOT := host.rowRoot(base, port), INSTANCE := Number(port) + ":managed"];
              if host.invalid(seen).None? && host.invalid(seen + assign).None?
              then ResolveInstance(host, Some(port), env) == Resolved(assign)
              else !ResolveInstance(host, Some(port), env).Resolved?
  {
    hide HasExplicitRoot;
    var seen := map key | key in env && Seen(env, key) :: env[key];
    assert AUTO_ROOT_IGNORED == ["CODEX_HOME", "XDG_CONFIG_HOME", "XDG_STATE_HOME", "XDG_CACHE_HOME", "XDG_RUNTIME_DIR",
      "YOLOMUX_HOST_ARTIFACT_DIR", "PYTHONPYCACHEPREFIX", "YOLOMUX_GENERATED_PYTHONPYCACHEPREFIX"];
    assert seen == Without(env, AUTO_ROOT_IGNORED);
    assert FormatInstance(Identity(port, true)) == Number(port) + ":managed";
  }

  /** Two such ports share their root only where the host gives both the same directory. */
  lemma RootsDiffer(host: Host, p: int, q: int, env: Environment)
    requires p != host.defaultPort && q != host.defaultPort
    requires CleanRowEnvironment(host, Some(p), env).Some? && CleanRowEnvironment(host, Some(q), env).Some?
    ensures host.tempDir(Without(env, INHERITED)).Some?
    ensures var base := host.tempDir(Without(env, INHERITED)).value;
            Get(CleanRowEnvironment(host, Some(p), env).value, ROOT) == Get(CleanRowEnvironment(host, Some(q), env).value, ROOT)
            <==> host.rowRoot(base, p) == host.rowRoot(base, q)
  {
    hide INHERITED, CleanRowEnvironment, ResolveRowPlan;
    RowHasItsOwnRoot(host, p, env);
    RowHasItsOwnRoot(host, q, env);
    NoPlanNoEnvironment(host, p, env);
  }

  lemma NoPlanNoEnvironment(host: Host, port: int, env: Environment)
    ensures ResolveRowPlan(host, Some(port), env).NoPlan? <==> CleanRowEnvironment(host, Some(port), env).None?
  {
  }

  /** Launched directly, a port is managed exactly when it is the port asked for, is not the default, and no root was set. */
  lemma ManagedExactlyWhen(host: Host, port: Option<int>, env: Environment, p: int)
    requires DirectPlan(host, port, env).Planned?
    ensures IsManagedInstancePort(p, ApplyRowPlan(DirectPlan(host, port, env).plan, env)) <==>
            && port == Some(p) && p != host.defaultPort && Get(env, "YOLOMUX_ROOT") == ""
            && Get(env, "YOLOMUX_RUNTIME_DIR") == "" && Get(env, "YOLOMUX_CONFIG_DIR") == ""
            && Get(env, "YOLOMUX_STATE_DIR") == "" && Get(env, "YOLOMUX_CACHE_DIR") == ""
  {
    ExplicitIs(env);
    hide INHERITED, HasExplicitRoot, IsManagedInstancePort, ResolveRowPlan, AUTO_ROOT_IGNORED, ROOTED_IGNORED, STALE;
    if port.Some? && port.value != host.defaultPort && !HasExplicitRoot(env) {
      RowIsManaged(host, port.value, env, p);
    } else {
      StaleKeepsRoots(env);
      var values := Without(env, STALE);
      assert ResolveInstance(host, port, values) == Resolved(map[]);
      InheritedHas(INSTANCE);
      NoIdentity(ApplyRowPlan(DirectPlan(host, port, env).plan, env), p);
    }
  }

  lemma ExplicitIs(env: Environment)
    ensures !HasExplicitRoot(env) <==>
      && Get(env, "YOLOMUX_ROOT") == "" && Get(env, "YOLOMUX_RUNTIME_DIR") == "" && Get(env, "YOLOMUX_CONFIG_DIR") == ""
      && Get(env, "YOLOMUX_STATE_DIR") == "" && Get(env, "YOLOMUX_CACHE_DIR") == ""
  {
    assert ROOT_KEYS[0] == "YOLOMUX_RUNTIME_DIR" && ROOT_KEYS[1] == "YOLOMUX_CONFIG_DIR" && ROOT_KEYS[2] == "YOLOMUX_STATE_DIR"
        && ROOT_KEYS[3] == "YOLOMUX_CACHE_DIR";
  }

  /** Of the four settings that a direct launch takes for stale. */
  predicate Stale(key: string) {
    key in {"YOLOMUX_INSTANCE", "YOLOMUX_EARLY_INSTANCE_PORT", "YOLOMUX_MANAGED_INSTANCE_PORT", "YOLOMUX_ROW_PLAN_FILE"}
  }

  /** Of those that a root of the caller's own overrides. */
  predicate Overridden(key: string) {
    key in {"CODEX_HOME", "XDG_CONFIG_HOME", "XDG_STATE_HOME", "XDG_CACHE_HOME", "XDG_RUNTIME_DIR"}
  }

  lemma KeyLists(key: string)
    ensures key in STALE <==> Stale(key)
    ensures key in ROOTED_IGNORED <==> Overridden(key)
    ensures Stale(key) ==> key in INHERITED
    ensures Overridden(key) ==> key in INHERITED
  {
    assert ROOTED_IGNORED == ["CODEX_HOME", "XDG_CONFIG_HOME", "XDG_STATE_HOME", "XDG_CACHE_HOME", "XDG_RUNTIME_DIR"];
    assert forall k :: k in XDG_KEYS ==> k in INHERITED;
    assert PRODUCT_ROOT_KEYS[6] == "CODEX_HOME" && forall k :: k in PRODUCT_ROOT_KEYS ==> k in INHERITED;
    assert INHERITED[0] == INSTANCE && INHERITED[1] == EARLY_PORT && INHERITED[2] == MANAGED_PORT && INHERITED[|INHERITED| - 1] == PLAN_FILE;
  }

  /**
    Where a port gets no root of its own, a direct launch keeps every setting of the caller but those that are stale and,
    if the caller set a root, those that it overrides; and what is about instances and roots is not kept empty.
   */
  lemma DirectKeeps(host: Host, port: Option<int>, env: Environment, key: string)
    requires DirectPlan(host, port, env).Planned? && (port.None? || port == Some(host.defaultPort) || HasExplicitRoot(env))
    ensures var child := ApplyRowPlan(DirectPlan(host, port, env).plan, env);
            && Get(child, key) == (if Stale(key) || (Get(env, ROOT) != "" && Overridden(key)) then "" else Get(env, key))
            && (key in child && key in INHERITED ==> child[key] != "")
  {
    hide INHERITED, HasExplicitRoot, AUTO_ROOT_IGNORED, STALE, ROOTED_IGNORED, ROOT_KEYS, Stale, Overridden;
    StaleKeepsRoots(env);
    KeyLists(key);
    var values := Without(env, STALE);
    assert ResolveInstance(host, port, values) == Resolved(map[]);
  }

  /** Roots that the caller set survive a direct launch. */
  lemma ExplicitRootsSurvive(host: Host, port: Option<int>, env: Environment, key: string)
    requires DirectPlan(host, port, env).Planned? && HasExplicitRoot(env)
    requires (key == ROOT || exists k :: 0 <= k < |ROOT_KEYS| && ROOT_KEYS[k] == key) && Get(env, key) != ""
    ensures Get(ApplyRowPlan(DirectPlan(host, port, env).plan, env), key) == env[key]
  {
    hide INHERITED, HasExplicitRoot, AUTO_ROOT_IGNORED, STALE, ROOTED_IGNORED, ROOT_KEYS;
    StaleKeepsRoots(env);
    var values := Without(env, STALE);
    assert ResolveInstance(host, port, values) == Resolved(map[]);
    if key == ROOT {
      InheritedHas(ROOT);
      RootStays();
    } else {
      var k :| 0 <= k < |ROOT_KEYS| && ROOT_KEYS[k] == key;
      RootKeyIs(k);
    }
  }

  lemma RootStays()
    ensures ROOT !in STALE && ROOT !in ROOTED_IGNORED
  {
  }
}
