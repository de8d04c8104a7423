/** The VCL reload path of the event loop: debounced reloads, retries, and the rollback of
    a template that was swapped in but never proven. Rendering is a function of template
    and inputs; what varnishd answers is chosen by the environment. */
module ReloadLoop {
  import opened Basics

  type Template = string
  type Vcl = string

  datatype Inputs = Inputs(
    frontends: seq<Endpoint>, backends: map<string, BackendState>,
    values: map<string, string>, secrets: map<string, string>)

  /** Executes a template; None is a render error. */
  type Render = (Template, Inputs) -> Option<Vcl>

  /** How a reload attempt ends: varnishd activates the VCL, its compiler refuses it, the
      attempt fails without telling anything about the VCL, or a signal cuts it short. */
  datatype Answer = Accepted | Rejected | Failed | Signalled

  /** Everything one reload meets: the template file as read (None when reading or parsing
      fails), whether temporary files can be written, and varnishd's answers; the last
      three serve the reload attempted after a rollback. */
  datatype Env = Env(file: Option<Template>, temp: bool, answer: Answer,
                     temp2: bool, answer2: Answer, file2: Option<Template>)

  /** Which timers are armed. */
  datatype Timers = Timers(frontend: bool, backend: bool, recovery: bool)

  /** `prev` is the rollback baseline while an unproven template is active; `lastVcl` is
      what the loop believes varnishd runs and `running` what it does run. */
  datatype Loop = Loop(
    tmpl: Template, prev: Option<Template>, inputs: Inputs,
    pending: bool, templateChanged: bool, swapped: bool,
    timers: Timers,
    lastVcl: Vcl, running: Vcl, stopping: bool)

  datatype Event =
    | FrontendsChanged(inputs: Inputs)
    | OthersChanged(inputs: Inputs)
    | FileChanged
    | FrontendFires(env: Env)
    | BackendFires(env: Env)
    | RecoveryFires(env: Env)

  // ---------------------------------------------------------------------------
  // The renderer's template slots
  // ---------------------------------------------------------------------------

  function Swap(s: Loop, t: Template): Loop {
    s.(tmpl := t, prev := if s.prev.None? then Some(s.tmpl) else s.prev, swapped := true)
  }

  function Commit(s: Loop): Loop {
    s.(prev := None, swapped := false)
  }

  function Rollback(s: Loop): Loop {
    s.(tmpl := if s.prev.Some? then s.prev.value else s.tmpl, prev := None, swapped := false)
  }

  // ---------------------------------------------------------------------------
  // One reload
  // ---------------------------------------------------------------------------

  function MarkRetry(retries: bool, s: Loop): Loop {
    s.(pending := true, timers := s.timers.(recovery := s.timers.recovery || retries))
  }

  function StopRetry(s: Loop): Loop {
    s.(timers := s.timers.(recovery := false))
  }

  function Activate(s: Loop, vcl: Vcl): Loop {
    s.(running := vcl, lastVcl := vcl)
  }

  /** The reload with the rolled-back template and the current inputs. */
  function RollbackReload(render: Render, s: Loop, env: Env): (r: (bool, Loop)) {
    var v := render(s.tmpl, s.inputs);
    if v.None? || !env.temp2 || !env.answer2.Accepted? then (false, s)
    else (true, Activate(s, v.value))
  }

  /** Rolls back and reloads; a failure after a render error re-reads the template. */
  function Revert(render: Render, retries: bool, s: Loop, env: Env, reread: bool): Loop {
    var (ok, t) := RollbackReload(render, Rollback(s), env);
    if ok then StopRetry(t)
    else MarkRetry(retries, if reread && env.file2.Some? then Swap(t, env.file2.value) else t)
  }

  /** The active template once a changed file has been read. */
  function Reread(s: Loop, env: Env): Loop {
    if s.templateChanged && env.file.Some? then Swap(s, env.file.value) else s
  }

  function Attempt(render: Render, retries: bool, s: Loop, env: Env): Loop {
    match render(s.tmpl, s.inputs)
    case None =>
      if s.swapped then Revert(render, retries, s, env, true) else StopRetry(s)
    case Some(vcl) =>
      if vcl == s.lastVcl then StopRetry(Commit(s))
      else if !env.temp then MarkRetry(retries, s)
      else Answered(render, retries, s, env, vcl)
  }

  /** After varnishd answered the attempt to load `vcl`. */
  function Answered(render: Render, retries: bool, s: Loop, env: Env, vcl: Vcl): Loop {
    match env.answer
    case Signalled => s.(stopping := true, pending := true)
    case Accepted => StopRetry(Commit(Activate(s, vcl)))
    case Rejected => if s.swapped then Revert(render, retries, s, env, false) else MarkRetry(retries, s)
    case Failed => MarkRetry(retries, s)
  }

  function DebounceReset(s: Loop): Loop {
    s.(timers := Timers(false, false, s.timers.recovery))
  }

  function HandleReload(render: Render, retries: bool, s: Loop, env: Env): Loop {
    var t := DebounceReset(s);
    if !s.pending then t
    else Attempt(render, retries, Reread(t.(pending := false), env).(templateChanged := false), env)
  }

  predicate Enabled(s: Loop, e: Event) {
    !s.stopping && match e
      case FrontendFires(_) => s.timers.frontend
      case BackendFires(_) => s.timers.backend
      case RecoveryFires(_) => s.timers.recovery
      case _ => true
  }

  function Next(render: Render, retries: bool, s: Loop, e: Event): Loop {
    match e
    case FrontendsChanged(i) => s.(inputs := i, pending := true, timers := s.timers.(frontend := true))
    case OthersChanged(i) => s.(inputs := i, pending := true, timers := s.timers.(backend := true))
    case FileChanged => s.(pending := true, templateChanged := true, timers := s.timers.(backend := true))
    case FrontendFires(env) => HandleReload(render, retries, s, env)
    case BackendFires(env) => HandleReload(render, retries, s, env)
    case RecoveryFires(env) => HandleReload(render, retries, s.(timers := s.timers.(recovery := false)), env)
  }

  // ---------------------------------------------------------------------------
  // What holds at every loop top
  // ---------------------------------------------------------------------------

  predicate Armed(s: Loop) {
    s.timers.frontend || s.timers.backend || s.timers.recovery
  }

  /** The running VCL is current, or a reload is due, or the current inputs cannot be
      rendered with the active template. */
  predicate NothingLost(render: Render, s: Loop) {
    || render(s.tmpl, s.inputs) == Some(s.running)
    || (s.pending && Armed(s))
    || render(s.tmpl, s.inputs) == None
  }

  /** A changed template file is never forgotten before it was read. */
  predicate FileRemembered(s: Loop) {
    s.templateChanged ==> s.pending && Armed(s)
  }

  predicate Consistent(s: Loop) {
    s.lastVcl == s.running && (s.swapped <==> s.prev.Some?)
  }

  function Baseline(s: Loop): Template {
    if s.prev.Some? then s.prev.value else s.tmpl
  }

  /** The state after a run of events, with the templates proven so far: those whose
      render was what varnishd ran while they were active. */
  datatype Run = Run(loop: Loop, proven: set<Template>)

  function Proves(render: Render, s: Loop): set<Template> {
    if !s.stopping && render(s.tmpl, s.inputs) == Some(s.running) then {s.tmpl} else {}
  }

  predicate Started(render: Render, s: Loop) {
    && render(s.tmpl, s.inputs) == Some(s.running) && s.lastVcl == s.running
    && s.prev.None? && !s.pending && !s.templateChanged && !s.swapped
    && !s.timers.recovery && !s.stopping
  }

  function After(render: Render, retries: bool, start: Loop, es: seq<Event>): Option<Run> {
    if es == [] then Some(Run(start, Proves(render, start)))
    else
      var r, e := After(render, retries, start, es[..|es| - 1]), es[|es| - 1];
      if r.Some? && Enabled(r.value.loop, e) then
        var s := Next(render, retries, r.value.loop, e);
        Some(Run(s, r.value.proven + Proves(render, s)))
      else None
  }

  predicate Invariant(render: Render, r: Run) {
    && Consistent(r.loop)
    && (r.loop.stopping || (NothingLost(render, r.loop) && FileRemembered(r.loop)))
    && Baseline(r.loop) in r.proven
  }

  /** A revert ends on the baseline running the inputs, or keeps what runs and retries. */
  lemma RevertOutcome(render: Render, retries: bool, s: Loop, env: Env, reread: bool)
    requires Consistent(s) && s.swapped && !s.pending && !s.templateChanged && !s.stopping
    ensures var t := Revert(render, retries, s, env, reread);
      && Consistent(t) && Baseline(t) == Baseline(s) && t.inputs == s.inputs
      && !t.stopping && !t.templateChanged
      && (|| (!t.pending && t.prev.None? && render(t.tmpl, t.inputs) == Some(t.running))
          || (t.pending && (retries ==> t.timers.recovery) && t.running == s.running))
  {}

  lemma RereadOutcome(s: Loop, env: Env)
    requires Consistent(s)
    ensures var t := Reread(s, env);
      && Consistent(t) && Baseline(t) == Baseline(s)
      && t == s.(tmpl := t.tmpl, prev := t.prev, swapped := t.swapped)
  {}

  /** What an attempt started from `s` may end in: current, retrying, unable to render,
      or shutting down, never with another baseline than a proven one. */
  predicate Outcome(render: Render, retries: bool, s: Loop, t: Loop) {
    && Consistent(t) && t.inputs == s.inputs && !t.templateChanged
    && (Baseline(t) == Baseline(s)
        || (Baseline(t) == t.tmpl && !t.stopping && render(t.tmpl, t.inputs) == Some(t.running)))
    && (|| (!t.stopping && !t.pending
            && (render(t.tmpl, t.inputs) == Some(t.running) || render(t.tmpl, t.inputs).None?))
        || (!t.stopping && t.pending && (retries ==> t.timers.recovery) && t.running == s.running)
        || t.stopping)
  }

  lemma AnsweredOutcome(render: Render, retries: bool, s: Loop, env: Env, vcl: Vcl)
    requires Consistent(s) && !s.pending && !s.templateChanged && !s.stopping
    requires render(s.tmpl, s.inputs) == Some(vcl)
    ensures Outcome(render, retries, s, Answered(render, retries, s, env, vcl))
  {
    hide Revert;
    if s.swapped {
      RevertOutcome(render, retries, s, env, false);
    }
  }

  lemma AttemptOutcome(render: Render, retries: bool, s: Loop, env: Env)
    requires Consistent(s) && !s.pending && !s.templateChanged && !s.stopping
    ensures Outcome(render, retries, s, Attempt(render, retries, s, env))
  {
    hide Revert, Answered;
    var v := render(s.tmpl, s.inputs);
    if v.Some? {
      AnsweredOutcome(render, retries, s, env, v.value);
    } else if s.swapped {
      RevertOutcome(render, retries, s, env, true);
    }
  }

  lemma ReloadKeepsConsistent(render: Render, retries: bool, s: Loop, env: Env)
    requires Consistent(s) && !s.stopping
    ensures Consistent(HandleReload(render, retries, s, env))
  {
    hide HandleReload, Prepared, Attempt;
    ReloadOutcome(render, retries, s, env);
  }

  /** The state an attempt starts from. */
  function Prepared(s: Loop, env: Env): Loop {
    Reread(DebounceReset(s).(pending := false), env).(templateChanged := false)
  }

  lemma ReloadOutcome(render: Render, retries: bool, s: Loop, env: Env)
    requires Consistent(s) && !s.stopping
    ensures s.pending ==>
      && HandleReload(render, retries, s, env) == Attempt(render, retries, Prepared(s, env), env)
      && Consistent(Prepared(s, env)) && Baseline(Prepared(s, env)) == Baseline(s)
      && Prepared(s, env).inputs == s.inputs && Prepared(s, env).running == s.running
    ensures var t := HandleReload(render, retries, s, env);
      if s.pending then Outcome(render, retries, s, t)
      else t == DebounceReset(s)
  {
    hide Attempt, Reread;
    if s.pending {
      RereadOutcome(DebounceReset(s).(pending := false), env);
      AttemptOutcome(render, retries, Prepared(s, env), env);
    }
  }

  lemma ReloadLosesNothing(render: Render, s: Loop, env: Env)
    requires Consistent(s) && !s.stopping
    requires s.pending || render(s.tmpl, s.inputs) == Some(s.running) || render(s.tmpl, s.inputs) == None
    requires s.templateChanged ==> s.pending
    ensures var t := HandleReload(render, true, s, env);
            t.stopping || (NothingLost(render, t) && FileRemembered(t))
  {
    hide HandleReload;
    ReloadOutcome(render, true, s, env);
  }

  /** The baseline only ever moves to a template whose render varnishd runs. */
  lemma ReloadKeepsBaselineProven(render: Render, retries: bool, s: Loop, env: Env)
    requires Consistent(s) && !s.stopping
    ensures var t := HandleReload(render, retries, s, env);
            Baseline(t) == Baseline(s) || (Baseline(t) == t.tmpl && Baseline(t) in Proves(render, t))
  {
    hide HandleReload;
    ReloadOutcome(render, retries, s, env);
  }

  lemma StepKeepsInvariant(render: Render, r: Run, e: Event)
    requires Invariant(render, r) && Enabled(r.loop, e)
    ensures var s := Next(render, true, r.loop, e);
            Invariant(render, Run(s, r.proven + Proves(render, s)))
  {
    hide HandleReload;
    if e.FrontendFires? || e.BackendFires? || e.RecoveryFires? {
      var s := if e.RecoveryFires? then StopRetry(r.loop) else r.loop;
      ReloadKeepsConsistent(render, true, s, e.env);
      ReloadLosesNothing(render, s, e.env);
      ReloadKeepsBaselineProven(render, true, s, e.env);
    }
  }

  /** Through repeated swaps, rejections, render failures, failed rollbacks and re-reads:
      with retries enabled no update is ever lost, a swap is flagged exactly while a
      rollback baseline is saved, the baseline is always a proven template, and the
      recorded VCL is always the one varnishd runs. */
  lemma {:induction false} EveryLoopTop(render: Render, start: Loop, es: seq<Event>)
    requires Started(render, start)
    ensures var r := After(render, true, start, es); r.Some? ==> Invariant(render, r.value)
  {
    if es != [] {
      hide Invariant, Next;
      EveryLoopTop(render, start, es[..|es| - 1]);
      var r, e := After(render, true, start, es[..|es| - 1]), es[|es| - 1];
      if r.Some? && Enabled(r.value.loop, e) {
        StepKeepsInvariant(render, r.value, e);
      }
    } else {
      assert Invariant(render, Run(start, Proves(render, start)));
    }
  }

  /** Without retries an update can be lost: a failed reload leaves nothing armed. */
  lemma LostWithoutRetries(render: Render, s: Loop, i: Inputs, vcl: Vcl, env: Env)
    requires Started(render, s) && !s.timers.frontend && !s.timers.backend
    requires render(s.tmpl, i) == Some(vcl) && vcl != s.running && env.temp && env.answer.Failed?
    ensures var a := Next(render, false, s, FrontendsChanged(i));
            var b := Next(render, false, a, FrontendFires(env));
            Enabled(s, FrontendsChanged(i)) && Enabled(a, FrontendFires(env)) && !NothingLost(render, b)
  {}

  // ---------------------------------------------------------------------------
  // What becomes of a new template
  // ---------------------------------------------------------------------------

  /** A new template is given up only when it failed to render or varnishd refused its
      VCL; every other failure keeps it active, with a retry due and the old template
      still saved. */
  lemma NewTemplateKeptUnlessRefused(render: Render, s: Loop, env: Env)
    requires Consistent(s) && s.pending && !s.stopping
    ensures var p := Prepared(s, env);
            KeepsTemplate(p, render(p.tmpl, s.inputs), env, HandleReload(render, true, s, env))
  {
    hide Reread;
    ReloadOutcome(render, true, s, env);
    KeptUnlessRefused(render, Prepared(s, env), env);
  }

  predicate KeepsTemplate(p: Loop, vcl: Option<Vcl>, env: Env, t: Loop) {
    && (t.tmpl != p.tmpl ==> p.swapped && (vcl.None? || env.answer.Rejected?))
    && (p.swapped && vcl.Some? && !env.answer.Rejected? ==>
          || (t.prev == None && Some(t.running) == vcl)
          || (t.pending && t.prev == p.prev && t.running == p.running))
  }

  lemma AnsweredKeepsTemplate(render: Render, p: Loop, env: Env, vcl: Vcl)
    requires Consistent(p)
    ensures KeepsTemplate(p, Some(vcl), env, Answered(render, true, p, env, vcl))
  {
    hide Revert;
  }

  lemma KeptUnlessRefused(render: Render, p: Loop, env: Env)
    requires Consistent(p)
    ensures KeepsTemplate(p, render(p.tmpl, p.inputs), env, Attempt(render, true, p, env))
  {
    hide Revert, Answered;
    if render(p.tmpl, p.inputs).Some? {
      AnsweredKeepsTemplate(render, p, env, render(p.tmpl, p.inputs).value);
    }
  }

  /** A refused template leaves the proven one active: with varnishd accepting it, the
      latest inputs are running under it when the reload returns. */
  lemma RefusedTemplateRollsBack(render: Render, s: Loop, env: Env)
    requires Consistent(s) && s.pending && !s.stopping && Prepared(s, env).swapped
    requires var vcl := render(Prepared(s, env).tmpl, s.inputs);
             vcl == None || (vcl.value != s.lastVcl && env.temp && env.answer.Rejected?)
    requires render(Baseline(s), s.inputs).Some? && env.temp2 && env.answer2.Accepted?
    ensures var t := HandleReload(render, true, s, env);
            && t.tmpl == Baseline(s) && t.prev == None && !t.pending
            && render(t.tmpl, t.inputs) == Some(t.running)
  {}

  /** When the old template cannot render the inputs either, the new one was not at
      fault: it is put back, still unproven, with a retry due. */
  lemma BlamelessTemplateIsRestored(render: Render, s: Loop, env: Env)
    requires Consistent(s) && s.pending && !s.stopping && Prepared(s, env).swapped
    requires render(Prepared(s, env).tmpl, s.inputs) == None && render(Baseline(s), s.inputs) == None
    ensures var t := HandleReload(render, true, s, env);
            && t.pending && t.timers.recovery && t.running == s.running
            && Baseline(t) == Baseline(s)
            && t.tmpl == if env.file2.Some? then env.file2.value else Baseline(s)
  {}

  /** Once the environment is healthy, the next timer settles everything due: the latest
      inputs run under the template just read, or that template's failure left the
      proven one running them. */
  lemma HealthyReloadSettles(render: Render, s: Loop, env: Env)
    requires Consistent(s) && s.pending && !s.stopping
    requires env.temp && env.answer.Accepted? && env.temp2 && env.answer2.Accepted?
    requires render(Baseline(s), s.inputs).Some?
    ensures var t := HandleReload(render, true, s, env);
            && !t.pending && !t.swapped && render(t.tmpl, t.inputs) == Some(t.running)
            && t.tmpl == if render(Prepared(s, env).tmpl, s.inputs).Some? then Prepared(s, env).tmpl else Baseline(s)
  {}

  // ---------------------------------------------------------------------------
  // The loop as the program updates it
  // ---------------------------------------------------------------------------

  class Renderer {
    var tmpl: Template
    var prev: Option<Template>

    constructor (tmpl: Template)
      ensures this.tmpl == tmpl && prev == None
    {
      this.tmpl, prev := tmpl, None;
    }

    /** Activates the template just read; the first unproven swap saves the baseline. */
    method Reload(file: Option<Template>) returns (ok: bool)
      modifies this
      ensures ok == file.Some?
      ensures tmpl == (if ok then file.value else old(tmpl))
      ensures prev == (if ok && old(prev).None? then Some(old(tmpl)) else old(prev))
    {
      if file.None? {
        return false;
      }
      if prev.None? {
        prev := Some(tmpl);
      }
      tmpl := file.value;
      return true;
    }

    method Commit()
      modifies this
      ensures prev == None && tmpl == old(tmpl)
    {
      prev := None;
    }

    method Rollback()
      modifies this
      ensures prev == None && tmpl == if old(prev).Some? then old(prev).value else old(tmpl)
    {
      if prev.Some? {
        tmpl := prev.value;
        prev := None;
      }
    }
  }

  class EventLoop {
    const render: Render
    const retries: bool
    const rend: Renderer
    var inputs: Inputs
    var pendingReload: bool
    var templateChanged: bool
    var templateSwapped: bool
    var timers: Timers
    var lastVcl: Vcl
    var running: Vcl
    var stopping: bool

    ghost function State(): Loop
      reads this, rend
    {
      Loop(rend.tmpl, rend.prev, inputs, pendingReload, templateChanged, templateSwapped,
           timers, lastVcl, running, stopping)
    }

    /** Starts with varnishd running the initial render. */
    constructor (render: Render, retries: bool, rend: Renderer, inputs: Inputs, vcl: Vcl)
      requires rend.prev.None? && render(rend.tmpl, inputs) == Some(vcl)
      ensures this.rend == rend && this.render == render && Started(render, State())
    {
      this.render, this.retries, this.rend := render, retries, rend;
      this.inputs, lastVcl, running := inputs, vcl, vcl;
      pendingReload, templateChanged, templateSwapped, stopping := false, false, false, false;
      timers := Timers(false, false, false);
    }

    method Retry()
      modifies this`pendingReload, this`timers
      ensures State() == MarkRetry(retries, old(State()))
    {
      pendingReload := true;
      if retries {
        timers := timers.(recovery := true);
      }
    }

    /** Re-renders with the rolled-back template and reloads. */
    method ReloadAfterRollback(env: Env) returns (ok: bool)
      modifies this`lastVcl, this`running
      ensures (ok, State()) == RollbackReload(render, old(State()), env)
    {
      var v := render(rend.tmpl, inputs);
      if v.None? {
        return false;
      }
      if !env.temp2 {
        return false;
      }
      if !env.answer2.Accepted? {
        return false;
      }
      running := v.value;
      lastVcl := v.value;
      return true;
    }

    /** Rolls the template back and reloads with it. */
    method RevertTemplate(env: Env, reread: bool)
      modifies this, rend
      ensures State() == Revert(render, retries, old(State()), env, reread)
    {
      rend.Rollback();
      templateSwapped := false;
      assert State() == Rollback(old(State()));
      var ok := ReloadAfterRollback(env);
      if ok {
        timers := timers.(recovery := false);
        return;
      }
      if reread {
        templateSwapped := rend.Reload(env.file2);
      }
      Retry();
    }

    /** Clears both debounce groups, picks up a changed template and attempts a reload. */
    method Reload(env: Env)
      requires Consistent(State())
      modifies this, rend
      ensures State() == HandleReload(render, retries, old(State()), env)
    {
      hide Attempt;
      timers := timers.(frontend := false, backend := false);
      if !pendingReload {
        return;
      }
      pendingReload := false;
      if templateChanged {
        var ok := rend.Reload(env.file);
        if ok {
          templateSwapped := true;
        }
      }
      templateChanged := false;
      assert State() == Prepared(old(State()), env);
      AttemptReload(env);
    }

    /** Renders and reloads with the active template. */
    method AttemptReload(env: Env)
      modifies this, rend
      ensures State() == Attempt(render, retries, old(State()), env)
    {
      hide Revert;
      var v := render(rend.tmpl, inputs);
      if v.None? {
        if templateSwapped {
          RevertTemplate(env, true);
          return;
        }
        timers := timers.(recovery := false);
        return;
      }
      if v.value == lastVcl {
        templateSwapped := false;
        rend.Commit();
        timers := timers.(recovery := false);
        return;
      }
      if !env.temp {
        Retry();
        return;
      }
      if env.answer.Signalled? {
        stopping := true;
        pendingReload := true;
        return;
      }
      if !env.answer.Accepted? {
        if !templateSwapped || !env.answer.Rejected? {
          Retry();
          return;
        }
        RevertTemplate(env, false);
        return;
      }
      running := v.value;
      lastVcl := v.value;
      templateSwapped := false;
      rend.Commit();
      timers := timers.(recovery := false);
    }

    /** One iteration of the event loop. */
    method Handle(e: Event)
      requires Enabled(State(), e) && Consistent(State())
      modifies this, rend
      ensures State() == Next(render, retries, old(State()), e)
    {
      hide HandleReload;
      match e
      case FrontendsChanged(i) =>
        inputs := i;
        pendingReload := true;
        timers := timers.(frontend := true);
      case OthersChanged(i) =>
        inputs := i;
        pendingReload := true;
        timers := timers.(backend := true);
      case FileChanged =>
        pendingReload := true;
        templateChanged := true;
        timers := timers.(backend := true);
      case FrontendFires(env) => Reload(env);
      case BackendFires(env) => Reload(env);
      case RecoveryFires(env) =>
        timers := timers.(recovery := false);
        Reload(env);
    }
  }
}
