/** Supervision of the one Cloudflare tunnel process: a generation counter keeps exit watchers and delayed restart
    timers of superseded processes from acting. */
module Supervisor {
  import opened Options
  import opened Text

  datatype Config = Config(enabled: bool, mode: string, token: string, target: string)

  predicate Valid(cfg: Config) {
    cfg.enabled ==> (cfg.mode == "token" && cfg.token != "") || (cfg.mode == "quick" && TrimSpace(cfg.target) != "")
  }

  function Fingerprint(cfg: Config): string {
    BoolText(cfg.enabled) + "|" + cfg.mode + "|" + cfg.token + "|" + cfg.target
  }

  function BuildArgs(cfg: Config): seq<string> {
    if cfg.mode == "token" then ["tunnel", "--no-autoupdate", "run", "--token", cfg.token]
    else ["tunnel", "--no-autoupdate", "--url", cfg.target]
  }

  // ---------- state ----------

  /** The supervisor of one started process: blocked on its exit, past the stale check, or a running timer. */
  datatype Watch = Waiting(pid: nat) | Checked(pid: nat) | Timer(pid: nat)

  /** cfg, proc, fp and gen are the manager's fields; live, stopped, args and next describe the processes ever
      started, and watch the goroutines and timers, by the generation they were created with. */
  datatype State = State(
    cfg: Config,
    proc: Option<nat>,
    fp: string,
    gen: nat,
    live: set<nat>,
    stopped: set<nat>,
    args: map<nat, seq<string>>,
    next: nat,
    watch: map<nat, Watch>)

  function Init(): State { State(Config(false, "", "", ""), None, "", 0, {}, {}, map[], 0, map[]) }

  /** startLocked: a failed start changes nothing. */
  function Launched(s: State, ok: bool): State {
    if !ok then s
    else s.(proc := Some(s.next), fp := Fingerprint(s.cfg), gen := s.gen + 1, live := s.live + {s.next},
            args := s.args[s.next := BuildArgs(s.cfg)], next := s.next + 1,
            watch := s.watch[s.gen + 1 := Waiting(s.next)])
  }

  /** stopLocked: Stop only marks a process that still runs. */
  function Halted(s: State): State {
    if s.proc.None? then s
    else
      var p := s.proc.value;
      s.(gen := s.gen + 1, proc := None, fp := "",
         stopped := if p in s.live then s.stopped + {p} else s.stopped, live := s.live - {p})
  }

  function Applied(s: State, cfg: Config, installed: bool, ok: bool): State {
    var t := s.(cfg := cfg);
    if !cfg.enabled || !Valid(cfg) || !installed then Halted(t)
    else if t.proc.Some? && t.proc.value in t.live && t.fp == Fingerprint(cfg) then t
    else Launched(Halted(t), ok)
  }

  function Stopped(s: State): State { Halted(s.(cfg := s.cfg.(enabled := false))) }

  /** The watcher's critical section, once its process has exited. */
  function ExitSeen(s: State, g: nat): State
    requires g in s.watch
  {
    if s.gen != g then s.(watch := s.watch - {g}) else s.(watch := s.watch[g := Checked(s.watch[g].pid)])
  }

  /** After the critical section: an intentional stop ends the watcher, otherwise the timer is armed. */
  function Armed(s: State, g: nat): State
    requires g in s.watch
  {
    if s.watch[g].pid in s.stopped then s.(watch := s.watch - {g}) else s.(watch := s.watch[g := Timer(s.watch[g].pid)])
  }

  function Fired(s: State, g: nat, ok: bool): State {
    var t := s.(watch := s.watch - {g});
    if s.gen != g || !s.cfg.enabled then t else Launched(t, ok)
  }

  /** Each step is one critical section, or one event outside the lock; installed and ok are the system's answers. */
  datatype Step =
    | Apply(cfg: Config, installed: bool, ok: bool)
    | Stop
    | Exit(pid: nat)
    | SeeExit(g: nat)
    | Arm(g: nat)
    | Fire(g: nat, ok: bool)

  predicate Enabled(s: State, step: Step) {
    match step
    case Apply(_, _, _) => true
    case Stop => true
    case Exit(pid) => pid in s.live
    case SeeExit(g) => g in s.watch && s.watch[g].Waiting? && s.watch[g].pid !in s.live
    case Arm(g) => g in s.watch && s.watch[g].Checked?
    case Fire(g, _) => g in s.watch && s.watch[g].Timer?
  }

  function Next(s: State, step: Step): State
    requires Enabled(s, step)
  {
    match step
    case Apply(cfg, installed, ok) => Applied(s, cfg, installed, ok)
    case Stop => Stopped(s)
    case Exit(pid) => s.(live := s.live - {pid})
    case SeeExit(g) => ExitSeen(s, g)
    case Arm(g) => Armed(s, g)
    case Fire(g, ok) => Fired(s, g, ok)
  }

  // ---------- what the program is told ----------

  /** A command line of the tunnel program, read word by word. */
  datatype Command = Command(named: bool, autoupdate: bool, token: Option<string>, url: Option<string>)

  function ReadFlags(args: seq<string>): Option<Command> {
    if args == [] then Some(Command(false, true, None, None))
    else if args[0] in ["--token", "--url"] then
      if |args| == 1 then None
      else
        match ReadFlags(args[2..])
        case None => None
        case Some(c) =>
          Some(if args[0] == "--token" then c.(token := Some(args[1])) else c.(url := Some(args[1])))
    else
      match ReadFlags(args[1..])
      case None => None
      case Some(c) =>
        if args[0] == "run" then Some(c.(named := true))
        else if args[0] == "--no-autoupdate" then Some(c.(autoupdate := false))
        else None
  }

  function ReadArgs(args: seq<string>): Option<Command> {
    if args == [] || args[0] != "tunnel" then None else ReadFlags(args[1..])
  }

  /** What a configuration asks for: its named tunnel by token, or else a quick tunnel to its target. */
  function Asked(cfg: Config): Command {
    var named := cfg.mode == "token";
    Command(named, false, if named then Some(cfg.token) else None, if named then None else Some(cfg.target))
  }

  lemma ArgsAreRead(cfg: Config)
    ensures ReadArgs(BuildArgs(cfg)) == Some(Asked(cfg))
  {
    var flag, value := if cfg.mode == "token" then "--token" else "--url", if cfg.mode
      == "token" then cfg.token else cfg.target;
    OneValue(flag, value);
    RunWord([flag, value]);
    NoUpdateWord([flag, value]);
    NoUpdateWord(["run", flag, value]);
    assert ["run"] + [flag, value] == ["run", flag, value];
    assert BuildArgs(cfg)[1..]
        == ["--no-autoupdate"] + if cfg.mode == "token" then ["run", flag, value] else [flag, value];
  }

  lemma RunWord(rest: seq<string>)
    requires ReadFlags(rest).Some?
    ensures ReadFlags(["run"] + rest) == Some(ReadFlags(rest).value.(named := true))
  {
    assert (["run"] + rest)[1..] == rest && |"run"| != |"--token"| && |"run"| != |"--url"|;
  }

  lemma NoUpdateWord(rest: seq<string>)
    requires ReadFlags(rest).Some?
    ensures ReadFlags(["--no-autoupdate"] + rest) == Some(ReadFlags(rest).value.(autoupdate := false))
  {
    assert (["--no-autoupdate"] + rest)[1..] == rest;
    assert |"--no-autoupdate"| != |"--token"| && |"--no-autoupdate"| != |"--url"| && |"--no-autoupdate"| != |"run"|;
  }

  lemma NoFlags()
    ensures ReadFlags([]) == Some(Command(false, true, None, None))
  {}

  lemma OneValue(flag: string, value: string)
    requires flag in ["--token", "--url"]
    ensures ReadFlags([flag, value])
         == Some(if flag == "--token" then Command(false, true, Some(value), None)
                 else Command(false, true, None, Some(value)))
  {
    NoFlags();
    assert [flag, value][2..] == [];
  }

  // ---------- safety ----------

  /** Every running process is the manager's, and its watcher waits with the current generation; what else has the
      current generation belongs to the manager's exited process; a disabled manager has no process. */
  ghost predicate Inv(s: State) {
    Ordered(s) && (!s.cfg.enabled ==> s.proc.None?)
  }

  ghost predicate Ordered(s: State) {
    (forall p :: p in s.live ==> s.proc == Some(p) && s.gen in s.watch && s.watch[s.gen] == Waiting(p))
    && (forall g :: g in s.watch ==> g <= s.gen && s.watch[g].pid < s.next)
    && (s.gen in s.watch ==> s.proc == Some(s.watch[s.gen].pid))
    && (s.proc.Some? ==> s.proc.value < s.next && s.proc.value !in s.stopped)
    && (forall p :: p in s.stopped ==> p < s.next)
  }

  /** The running tunnel was started with the arguments of the configuration applied last. */
  ghost predicate ServesConfig(s: State) {
    forall p :: p in s.live ==>
      s.cfg.enabled && Valid(s.cfg) && s.fp == Fingerprint(s.cfg) && p in s.args && s.args[p] == BuildArgs(s.cfg)
  }

  lemma HaltedKeepsOrder(s: State)
    requires Ordered(s)
    ensures Ordered(Halted(s)) && Halted(s).proc.None? && Halted(s).live == {}
  {}

  lemma LaunchedKeepsOrder(s: State, ok: bool)
    requires Ordered(s) && s.live == {}
    ensures Ordered(Launched(s, ok))
  {
    hide Fingerprint, BuildArgs;
  }

  lemma NextKeepsInv(s: State, step: Step)
    requires Inv(s) && Enabled(s, step)
    ensures Inv(Next(s, step))
  {
    hide Fingerprint, BuildArgs, Valid;
    match step {
      case Apply(cfg, installed, ok) =>
        hide Ordered;
        var t := s.(cfg := cfg);
        assert Ordered(t) by { OrderIgnoresConfig(s, cfg); }
        HaltedKeepsOrder(t);
        LaunchedKeepsOrder(Halted(t), ok);
      case Stop =>
        hide Ordered;
        var t := s.(cfg := s.cfg.(enabled := false));
        OrderIgnoresConfig(s, t.cfg);
        HaltedKeepsOrder(t);
      case Fire(g, ok) =>
        var t := s.(watch := s.watch - {g});
        assert s.gen == g ==> s.live == {};
        assert Ordered(t);
        hide Ordered;
        if s.gen == g {
          LaunchedKeepsOrder(t, ok);
        }
      case Exit(_) =>
      case SeeExit(_) =>
      case Arm(_) =>
    }
  }

  lemma OrderIgnoresConfig(s: State, cfg: Config)
    ensures Ordered(s.(cfg := cfg)) <==> Ordered(s)
  {}

  /** A tunnel starts only in an enabled Apply, or when the timer of the current generation fires while the tunnel
      is enabled and its process has exited; and a start never joins a running process. */
  lemma StartsAreWanted(s: State, step: Step)
    requires Inv(s) && Enabled(s, step) && Next(s, step).next != s.next
    ensures (step.Apply? && step.cfg.enabled)
         || (step.Fire? && step.g == s.gen && s.cfg.enabled && s.live == {} && s.proc == Some(s.watch[step.g].pid))
    ensures Next(s, step).live == {s.next} && Next(s, step).proc == Some(s.next)
    ensures Next(s, step).gen > s.gen
  {
    hide Fingerprint, BuildArgs, Valid;
  }

  /** The separator of the fingerprint does not occur in the token. */
  predicate Clean(cfg: Config) { '|' !in cfg.token }

  lemma FingerprintFixesConfig(a: Config, b: Config)
    requires Clean(a) && Clean(b) && a.enabled && b.enabled && Valid(a) && Valid(b) && Fingerprint(a) == Fingerprint(b)
    ensures a == b
  {
    SameFields(a, b);
    CutAt(a.token, '|', a.target, b.token, b.target);
  }

  /** Equal fingerprints of valid configurations mean equal modes, and equal fields once these are joined. */
  lemma SameFields(a: Config, b: Config)
    requires a.enabled && b.enabled && Valid(a) && Valid(b)
    ensures Fingerprint(a) == Fingerprint(b)
            <==> a.mode == b.mode && a.token + ['|'] + a.target == b.token + ['|'] + b.target
  {
    hide TrimSpace;
    var s, t := a.token + "|" + a.target, b.token + "|" + b.target;
    var x, y := a.mode + "|" + s, b.mode + "|" + t;
    assert Fingerprint(a) == "true" + ['|'] + x && Fingerprint(b) == "true" + ['|'] + y;
    if Fingerprint(a) == Fingerprint(b) {
      CutAt("true", '|', x, "true", y);
      CutAt(a.mode, '|', s, b.mode, t);
    }
  }

  /** No other configuration that needs other arguments can look the same. */
  predicate Unmistakable(a: Config) {
    if a.mode == "token" then a.token != "" && '|' !in a.token[1..] && '|' !in a.target
    else '|' !in a.token && forall i :: 0 <= i < |a.target| && a.target[i] == '|' ==> TrimSpace(a.target[i + 1..]) == ""
  }

  lemma FingerprintFixesArgs(a: Config, b: Config)
    requires Unmistakable(a) && a.enabled && b.enabled && Valid(a) && Valid(b) && Fingerprint(a) == Fingerprint(b)
    ensures BuildArgs(a) == BuildArgs(b)
  {
    hide TrimSpace, Fingerprint, BuildArgs, Unmistakable, Valid;
    SameFields(a, b);
    var s, t := a.token + ['|'] + a.target, b.token + ['|'] + b.target;
    if |b.token| < |a.token| {
      assert t[|b.token|] == s[|b.token|];
      EarlierSeparator(a, b);
    } else if |b.token| > |a.token| {
      assert t[|b.token|] == s[|b.token|] && t[|b.token| + 1..] == s[|b.token| + 1..];
      LaterSeparator(a, b, |b.token| - |a.token| - 1);
    } else {
      assert s[..|a.token|] == a.token && t[..|a.token|] == b.token;
      assert s[|a.token| + 1..] == a.target && t[|a.token| + 1..] == b.target;
      hide *;
      SameArgs(a, b);
    }
  }

  lemma SameArgs(a: Config, b: Config)
    requires a.mode == b.mode && a.token == b.token && a.target == b.target
    ensures BuildArgs(a) == BuildArgs(b)
  {}

  lemma EarlierSeparator(a: Config, b: Config)
    requires Unmistakable(a) && Valid(b) && b.enabled && a.mode == b.mode && |b.token| < |a.token|
    ensures a.token[|b.token|] != '|'
  {
    assert a.mode == "token" ==> a.token[|b.token|] == a.token[1..][|b.token| - 1];
  }

  lemma LaterSeparator(a: Config, b: Config, i: nat)
    requires Unmistakable(a) && Valid(b) && b.enabled && a.mode == b.mode && i < |a.target|
    ensures a.target[i] != '|' || b.target != a.target[i + 1..]
  {}

  ghost predicate NeverMistaken(a: Config) {
    forall b: Config :: b.enabled && Valid(b) && Fingerprint(b) == Fingerprint(a) ==> BuildArgs(b) == BuildArgs(a)
  }

  /** The condition is exact: where it fails, some valid configuration looks the same but needs other arguments. */
  lemma UnmistakableExactly(a: Config)
    requires a.enabled && Valid(a)
    ensures Unmistakable(a) <==> NeverMistaken(a)
  {
    hide Fingerprint, BuildArgs, Unmistakable, Valid;
    if Unmistakable(a) {
      forall b: Config | b.enabled && Valid(b) && Fingerprint(b) == Fingerprint(a)
        ensures BuildArgs(b) == BuildArgs(a)
      {
        FingerprintFixesArgs(a, b);
      }
    } else {
      var b := Lookalike(a);
      assert b.enabled && Valid(b) && Fingerprint(b) == Fingerprint(a) && BuildArgs(b) != BuildArgs(a);
    }
  }

  /** Cuts the joined fields at another separator. */
  lemma Lookalike(a: Config) returns (b: Config)
    requires a.enabled && Valid(a) && !Unmistakable(a)
    ensures b.enabled && Valid(b) && Fingerprint(b) == Fingerprint(a) && BuildArgs(b) != BuildArgs(a)
  {
    hide Fingerprint, TrimSpace;
    if a.mode == "token" && '|' in a.token[1..] {
      var i :| 1 <= i < |a.token| && a.token[i] == '|';
      b := CutInToken(a, i);
    } else if a.mode == "token" {
      var i :| 0 <= i < |a.target| && a.target[i] == '|';
      b := CutInTarget(a, i);
    } else if '|' in a.token {
      var i :| 0 <= i < |a.token| && a.token[i] == '|';
      b := CutInToken(a, i);
    } else {
      var i :| 0 <= i < |a.target| && a.target[i] == '|' && TrimSpace(a.target[i + 1..]) != "";
      b := CutInTarget(a, i);
    }
  }

  lemma CutInToken(a: Config, i: nat) returns (b: Config)
    requires a.enabled && Valid(a) && i < |a.token| && a.token[i] == '|' && (a.mode == "token" ==> i > 0)
    ensures b.enabled && Valid(b) && Fingerprint(b) == Fingerprint(a) && BuildArgs(b) != BuildArgs(a)
  {
    hide Fingerprint, TrimSpace;
    b := Config(true, a.mode, a.token[..i], a.token[i + 1..] + "|" + a.target);
    SeparatorIsKept(a.token[i + 1..], a.target);
    assert a.token[..i] + ['|'] + a.token[i + 1..] == a.token;
    assert b.token + ['|'] + b.target == a.token + ['|'] + a.target;
    SameFields(a, b);
    OtherArgs(a, b);
  }

  lemma CutInTarget(a: Config, i: nat) returns (b: Config)
    requires a.enabled && Valid(a) && i < |a.target| && a.target[i] == '|'
    requires a.mode == "quick" ==> TrimSpace(a.target[i + 1..]) != ""
    ensures b.enabled && Valid(b) && Fingerprint(b) == Fingerprint(a) && BuildArgs(b) != BuildArgs(a)
  {
    hide Fingerprint, TrimSpace;
    b := Config(true, a.mode, a.token + "|" + a.target[..i], a.target[i + 1..]);
    assert a.target[..i] + ['|'] + a.target[i + 1..] == a.target;
    assert b.token + ['|'] + b.target == a.token + ['|'] + a.target;
    SameFields(a, b);
    OtherArgs(a, b);
  }

  lemma OtherArgs(a: Config, b: Config)
    requires a.mode == b.mode && |a.token| != |b.token| && |a.target| != |b.target|
    ensures BuildArgs(a) != BuildArgs(b)
  {
    assert a.mode == "token" ==> BuildArgs(a)[4] != BuildArgs(b)[4];
    assert a.mode != "token" ==> BuildArgs(a)[3] != BuildArgs(b)[3];
  }

  /** A text that holds a separator is not blank. */
  lemma SeparatorIsKept(x: string, y: string)
    ensures TrimSpace(x + "|" + y) != ""
  {
    assert (x + "|" + y)[|x|] == '|';
    LeftKeepsSeparator(x + "|" + y);
    RightKeepsSeparator(TrimLeft(x + "|" + y));
  }

  lemma {:induction false} LeftKeepsSeparator(s: string)
    requires '|' in s
    ensures '|' in TrimLeft(s)
  {
    if IsSpace(s[0]) {
      assert s == [s[0]] + s[1..];
      LeftKeepsSeparator(s[1..]);
    }
  }

  lemma {:induction false} RightKeepsSeparator(s: string)
    requires '|' in s
    ensures '|' in TrimRight(s)
  {
    if IsSpace(s[|s| - 1]) {
      assert s == s[..|s| - 1] + [s[|s| - 1]];
      RightKeepsSeparator(s[..|s| - 1]);
    }
  }

  /** Two valid configurations that need different arguments can look unchanged. */
  lemma TokenSeparatorMatters()
    ensures var a, b := Config(true, "token", "a|b", "c"), Config(true, "token", "a", "b|c");
            Valid(a) && Valid(b) && Fingerprint(a) == Fingerprint(b) && BuildArgs(a) != BuildArgs(b)
  {
    var a, b := Config(true, "token", "a|b", "c"), Config(true, "token", "a", "b|c");
    assert Fingerprint(a) == "true|token|a|b|c" == Fingerprint(b);
    assert BuildArgs(a)[4] != BuildArgs(b)[4] by { assert |a.token| != |b.token|; }
  }

  lemma NextServesConfig(s: State, step: Step)
    requires Inv(s) && ServesConfig(s) && Enabled(s, step)
    requires step.Apply? && step.cfg.enabled && Valid(step.cfg) ==> Unmistakable(step.cfg)
    requires s.proc.Some? ==> Valid(s.cfg)
    ensures ServesConfig(Next(s, step))
    ensures Next(s, step).proc.Some? ==> Valid(Next(s, step).cfg)
  {
    hide Fingerprint, BuildArgs, Valid, Unmistakable;
    if step.Apply? && s.live != {} && step.cfg.enabled && Valid(step.cfg) && s.fp == Fingerprint(step.cfg) {
      FingerprintFixesArgs(step.cfg, s.cfg);
    }
  }

  /** Without the condition a tunnel can go on with arguments that its new configuration does not have. */
  lemma MistakenIsNotServed(a: Config) returns (b: Config)
    requires a.enabled && Valid(a) && !Unmistakable(a)
    ensures Valid(b) && !ServesConfig(Applied(Applied(Init(), a, true, true), b, true, true))
  {
    hide Fingerprint, BuildArgs, Valid, Unmistakable;
    b := Lookalike(a);
    assert Applied(Init(), a, true, true).live == {0};
  }

  // ---------- supervision ----------

  /** An enabled tunnel runs, or its process has exited and a watcher or timer will restart it. */
  ghost predicate Supervised(s: State) {
    s.cfg.enabled ==> s.proc.Some? && s.gen in s.watch
  }

  /** The wanted tunnel already runs, so that Apply starts nothing. */
  predicate AlreadyRuns(s: State, cfg: Config) {
    s.proc.Some? && s.proc.value in s.live && s.fp == Fingerprint(cfg)
  }

  /** An enabled tunnel is left without supervision in exactly two ways: the restart by the timer fails, or Apply ends
      without a process because the config is invalid, the binary is missing or the start fails. */
  lemma SupervisionKept(s: State, step: Step)
    requires Inv(s) && Supervised(s) && Enabled(s, step)
    ensures !Supervised(Next(s, step)) <==>
      (step.Fire? && step.g == s.gen && s.cfg.enabled && !step.ok)
      || (step.Apply? && step.cfg.enabled
          && (!Valid(step.cfg) || !step.installed || (!step.ok && !AlreadyRuns(s, step.cfg))))
  {
    hide Fingerprint, BuildArgs, Valid;
  }

  /** What was lost comes back with the next enabled Apply that can start, and with nothing else. */
  lemma OnlyApplyRegains(s: State, step: Step)
    requires Inv(s) && !Supervised(s) && Enabled(s, step) && Next(s, step).cfg.enabled
    ensures Supervised(Next(s, step))
            <==> step.Apply? && Valid(step.cfg) && step.installed && (step.ok || AlreadyRuns(s, step.cfg))
  {
    hide Fingerprint, BuildArgs, Valid;
  }

  // ---------- runs ----------

  ghost predicate IsRun(states: seq<State>, steps: seq<Step>) {
    |states| == |steps| + 1 && states[0] == Init()
    && forall i :: 0 <= i < |steps| ==> Enabled(states[i], steps[i]) && states[i + 1] == Next(states[i], steps[i])
  }

  lemma {:induction false} RunKeepsInv(states: seq<State>, steps: seq<Step>, n: nat)
    requires IsRun(states, steps) && n <= |steps|
    ensures Inv(states[n])
  {
    hide Next, Enabled, Inv;
    if n == 0 {
      InitIsSafe();
    } else {
      RunKeepsInv(states, steps, n - 1);
      NextKeepsInv(states[n - 1], steps[n - 1]);
    }
  }

  lemma InitIsSafe()
    ensures Inv(Init()) && ServesConfig(Init())
  {}

  /** In every interleaving at most one tunnel runs; it is the manager's, its watcher carries the current
      generation, and the tunnel is enabled. */
  lemma AtMostOneTunnel(states: seq<State>, steps: seq<Step>, n: nat)
    requires IsRun(states, steps) && n <= |steps|
    ensures var s := states[n];
            s.live == {}
            || (s.proc.Some? && s.live == {s.proc.value} && s.cfg.enabled
                && s.gen in s.watch && s.watch[s.gen] == Waiting(s.proc.value))
  {
    RunKeepsInv(states, steps, n);
    var s := states[n];
    if s.live != {} {
      var p :| p in s.live;
      assert s.live == {p};
    }
  }

  lemma {:induction false} RunServesConfig(states: seq<State>, steps: seq<Step>, n: nat)
    requires IsRun(states, steps) && n <= |steps|
    requires forall i :: 0 <= i < |steps| && steps[i].Apply? && steps[i].cfg.enabled && Valid(steps[i].cfg) ==>
               Unmistakable(steps[i].cfg)
    ensures ServesConfig(states[n])
    ensures states[n].proc.Some? ==> Valid(states[n].cfg)
  {
    hide Next, Enabled, Inv, ServesConfig, Unmistakable, Valid;
    if n == 0 {
      InitIsSafe();
    } else {
      RunServesConfig(states, steps, n - 1);
      RunKeepsInv(states, steps, n - 1);
      NextServesConfig(states[n - 1], steps[n - 1]);
    }
  }

  /** What the running tunnel was told, once its words are read, is what the configuration applied last asks for. */
  lemma RunIsAsAsked(states: seq<State>, steps: seq<Step>, n: nat, pid: nat)
    requires IsRun(states, steps) && n <= |steps| && pid in states[n].live
    requires forall i :: 0 <= i < |steps| && steps[i].Apply? && steps[i].cfg.enabled && Valid(steps[i].cfg) ==>
               Unmistakable(steps[i].cfg)
    ensures var s := states[n]; s.cfg.enabled && pid in s.args && ReadArgs(s.args[pid]) == Some(Asked(s.cfg))
  {
    hide Unmistakable, Fingerprint, BuildArgs, ReadArgs, Asked, Valid, Inv, Next;
    RunServesConfig(states, steps, n);
    ArgsAreRead(states[n].cfg);
  }

  /** After Stop nothing runs and nothing starts until an enabled Apply, whatever timers and watchers are pending. */
  lemma {:induction false} QuietAfterStop(states: seq<State>, steps: seq<Step>, i: nat, j: nat)
    requires IsRun(states, steps) && i < j <= |steps| && steps[i].Stop?
    requires forall k :: i < k < j && steps[k].Apply? ==> !steps[k].cfg.enabled
    ensures states[j].live == {} && states[j].next == states[i].next && !states[j].cfg.enabled
  {
    hide Fingerprint, BuildArgs, Valid;
    if j == i + 1 {
      RunKeepsInv(states, steps, i + 1);
      RunKeepsInv(states, steps, i);
      assert states[j] == Next(states[i], steps[i]);
    } else {
      QuietAfterStop(states, steps, i, j - 1);
      RunKeepsInv(states, steps, j - 1);
      assert states[j] == Next(states[j - 1], steps[j - 1]);
    }
  }

  // ---------- the object ----------

  class Manager {
    var cfg: Config
    var proc: Option<nat>
    var fp: string
    var gen: nat
    // Processes, goroutines and timers as the system holds them.
    var live: set<nat>
    var stopped: set<nat>
    var args: map<nat, seq<string>>
    var next: nat
    var watch: map<nat, Watch>

    function Value(): State
      reads this
    {
      State(cfg, proc, fp, gen, live, stopped, args, next, watch)
    }

    constructor ()
      ensures Value() == Init()
    {
      cfg, proc, fp, gen := Config(false, "", "", ""), None, "", 0;
      live, stopped, args, next, watch := {}, {}, map[], 0, map[];
    }

    method StartLocked(ok: bool) returns (err: bool)
      modifies this
      ensures Value() == Launched(old(Value()), ok) && err == !ok
    {
      if !ok {
        return true;
      }
      var p := next;
      live, args, next := live + {p}, args[p := BuildArgs(cfg)], next + 1;
      proc := Some(p);
      fp := Fingerprint(cfg);
      gen := gen + 1;
      watch := watch[gen := Waiting(p)];
      return false;
    }

    method StopLocked()
      modifies this
      ensures Value() == Halted(old(Value()))
    {
      if proc.None? {
        return;
      }
      gen := gen + 1;
      if proc.value in live {
        stopped := stopped + {proc.value};
      }
      live := live - {proc.value};
      proc := None;
      fp := "";
    }

    method Apply(cfg: Config, installed: bool, ok: bool) returns (err: bool)
      modifies this
      ensures Value() == Applied(old(Value()), cfg, installed, ok)
      ensures err <==> cfg.enabled && (!Valid(cfg) || (installed && !ok && Value().proc.None?))
    {
      this.cfg := cfg;
      if !cfg.enabled {
        StopLocked();
        return false;
      }
      if !Valid(cfg) {
        StopLocked();
        return true;
      }
      if !installed {
        StopLocked();
        return false;
      }
      if proc.Some? && proc.value in live && fp == Fingerprint(cfg) {
        return false;
      }
      StopLocked();
      err := StartLocked(ok);
    }

    method Stop()
      modifies this
      ensures Value() == Stopped(old(Value()))
    {
      cfg := cfg.(enabled := false);
      StopLocked();
    }

    /** superviseExit up to the unlock, for the watcher created with generation g. */
    method SeeExit(g: nat)
      requires Enabled(Value(), Step.SeeExit(g))
      modifies this
      ensures Value() == ExitSeen(old(Value()), g)
    {
      var stale := gen != g;
      if stale {
        watch := watch - {g};
      } else {
        watch := watch[g := Checked(watch[g].pid)];
      }
    }

    /** superviseExit after the unlock. */
    method Arm(g: nat)
      requires Enabled(Value(), Step.Arm(g))
      modifies this
      ensures Value() == Armed(old(Value()), g)
    {
      if watch[g].pid in stopped {
        watch := watch - {g};
        return;
      }
      watch := watch[g := Timer(watch[g].pid)];
    }

    /** The timer's callback. */
    method Fire(g: nat, ok: bool)
      requires Enabled(Value(), Step.Fire(g, ok))
      modifies this
      ensures Value() == Fired(old(Value()), g, ok)
    {
      watch := watch - {g};
      if gen != g || !cfg.enabled {
        return;
      }
      var _ := StartLocked(ok);
    }
  }
}
