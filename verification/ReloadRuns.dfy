/** What becomes of a template file: one reload told by the file, the renders and varnishd's
    answers alone, and whole runs told by their events alone. */
module ReloadRuns {
  import opened Basics
  import opened ReloadLoop

  // ---------------------------------------------------------------------------
  // One reload
  // ---------------------------------------------------------------------------

  /** The template a reload is about: a changed file that can be read, else the active one. */
  function Tried(s: Loop, env: Env): Template {
    if s.templateChanged && env.file.Some? then env.file.value else s.tmpl
  }

  /** It has yet to prove itself. */
  predicate OnTrial(s: Loop, env: Env) {
    s.prev.Some? || (s.templateChanged && env.file.Some?)
  }

  /** Its render runs already, or varnishd takes it. */
  predicate Taken(vcl: Option<Vcl>, s: Loop, env: Env) {
    vcl.Some? && (vcl.value == s.running || (env.temp && env.answer.Accepted?))
  }

  /** varnishd's compiler turns its render down. */
  predicate TurnedDown(vcl: Option<Vcl>, s: Loop, env: Env) {
    vcl.Some? && vcl.value != s.running && env.temp && env.answer.Rejected?
  }

  predicate BaselineServes(render: Render, s: Loop, env: Env) {
    render(Baseline(s), s.inputs).Some? && env.temp2 && env.answer2.Accepted?
  }

  predicate Quiet(t: Loop) {
    !t.pending && !t.timers.recovery && !t.stopping
  }

  predicate Retrying(retries: bool, s: Loop, t: Loop) {
    t.running == s.running && t.pending && !t.stopping && t.timers.recovery == (s.timers.recovery || retries)
  }

  /** The state `t` after a reload that was due in `s`. */
  predicate Verdict(render: Render, retries: bool, s: Loop, env: Env, t: Loop) {
    var f := Tried(s, env);
    var vcl := render(f, s.inputs);
    && Consistent(t) && t.inputs == s.inputs && !t.templateChanged && !t.timers.frontend && !t.timers.backend
    && (if Taken(vcl, s, env) then
          t.tmpl == f && t.prev == None && vcl == Some(t.running) && Quiet(t)
        else if vcl.None? && !OnTrial(s, env) then
          t.tmpl == f && t.prev == None && t.running == s.running && Quiet(t)
        else if (vcl.None? || TurnedDown(vcl, s, env)) && OnTrial(s, env) then
          if BaselineServes(render, s, env) then
            t.tmpl == Baseline(s) && t.prev == None && Some(t.running) == render(Baseline(s), s.inputs) && Quiet(t)
          else
            && Retrying(retries, s, t)
            && (if vcl.None? && env.file2.Some? then t.tmpl == env.file2.value && t.prev == Some(Baseline(s))
                else t.tmpl == Baseline(s) && t.prev == None)
        else
          && t.tmpl == f && t.prev == (if OnTrial(s, env) then Some(Baseline(s)) else None)
          && (if env.temp && env.answer.Signalled? then
                t.stopping && t.pending && t.running == s.running && t.timers.recovery == s.timers.recovery
              else Retrying(retries, s, t)))
  }

  lemma RevertVerdict(render: Render, retries: bool, s: Loop, env: Env, reread: bool)
    requires Consistent(s) && s.prev.Some? && !s.stopping
    requires !s.pending && !s.templateChanged && !s.timers.frontend && !s.timers.backend
    ensures var t := Revert(render, retries, s, env, reread);
      && Consistent(t) && t.inputs == s.inputs && !t.templateChanged && !t.timers.frontend && !t.timers.backend
      && (if BaselineServes(render, s, env) then
            t.tmpl == Baseline(s) && t.prev == None && Some(t.running) == render(Baseline(s), s.inputs) && Quiet(t)
          else
            && Retrying(retries, s, t)
            && (if reread && env.file2.Some? then t.tmpl == env.file2.value && t.prev == Some(Baseline(s))
                else t.tmpl == Baseline(s) && t.prev == None))
  {}

  lemma AttemptVerdict(render: Render, retries: bool, s: Loop, env: Env)
    requires Consistent(s) && !s.stopping
    requires !s.pending && !s.templateChanged && !s.timers.frontend && !s.timers.backend
    ensures Verdict(render, retries, s, env, Attempt(render, retries, s, env))
  {
    hide Revert;
    if s.prev.Some? {
      RevertVerdict(render, retries, s, env, true);
      RevertVerdict(render, retries, s, env, false);
    }
    hide BaselineServes;
  }

  /**
   * A reload that is due is about the changed file, or about the active template if there
   * is none that can be read. Its render is what runs afterwards, with nothing left to roll
   * back, if varnishd runs it already or takes it. A template on trial that does not render
   * or is turned down gives way to the proven one; if that fails too, a template that did
   * not render is read again. Every other failure keeps it, still on trial, and retries.
   */
  lemma ReloadVerdict(render: Render, retries: bool, s: Loop, env: Env)
    requires Consistent(s) && !s.stopping && s.pending
    ensures Verdict(render, retries, s, env, HandleReload(render, retries, s, env))
  {
    hide Attempt;
    var p := Reread(DebounceReset(s).(pending := false), env).(templateChanged := false);
    AttemptVerdict(render, retries, p, env);
    assert Tried(p, env) == Tried(s, env) && Baseline(p) == Baseline(s) && OnTrial(p, env) == OnTrial(s, env);
  }

  /** A reload that is not due, or that no change of the file brought about, does not look
      at the file. */
  lemma UnchangedFileIsIgnored(render: Render, retries: bool, s: Loop, env: Env, other: Option<Template>)
    requires !s.pending || !s.templateChanged
    ensures HandleReload(render, retries, s, env) == HandleReload(render, retries, s, env.(file := other))
    ensures !s.pending ==>
              HandleReload(render, retries, s, env) == s.(timers := Timers(false, false, s.timers.recovery))
  {}

  // ---------------------------------------------------------------------------
  // Whole runs
  // ---------------------------------------------------------------------------

  predicate Fires(e: Event) {
    e.FrontendFires? || e.BackendFires? || e.RecoveryFires?
  }

  /** The inputs announced last. */
  function LatestInputs(start: Inputs, es: seq<Event>): Inputs {
    if es == [] then start
    else
      match es[|es| - 1]
      case FrontendsChanged(i) => i
      case OthersChanged(i) => i
      case _ => LatestInputs(start, es[..|es| - 1])
  }

  datatype Kind = AnyChange | FileChange | FrontendGroup | BackendGroup

  predicate Concerns(kind: Kind, e: Event) {
    match kind
    case AnyChange => !Fires(e)
    case FileChange => e.FileChanged?
    case FrontendGroup => e.FrontendsChanged?
    case BackendGroup => e.OthersChanged? || e.FileChanged?
  }

  /** An event of this kind came in and no timer has fired since. */
  predicate Due(kind: Kind, start: bool, es: seq<Event>) {
    if es == [] then start
    else
      var e := es[|es| - 1];
      Concerns(kind, e) || (!Fires(e) && Due(kind, start, es[..|es| - 1]))
  }

  /** The file has changed since the last firing. */
  predicate FileDue(es: seq<Event>) {
    Due(FileChange, false, es)
  }

  ghost predicate Remembers(start: Loop, es: seq<Event>, s: Loop) {
    && Consistent(s) && s.inputs == LatestInputs(start.inputs, es)
    && s.templateChanged == FileDue(es)
    && s.timers.frontend == Due(FrontendGroup, start.timers.frontend, es)
    && s.timers.backend == Due(BackendGroup, start.timers.backend, es)
    && (Due(AnyChange, false, es) ==> s.pending)
  }

  lemma DueStep(kind: Kind, start: bool, es: seq<Event>, e: Event)
    ensures Due(kind, start, es + [e]) == (Concerns(kind, e) || (!Fires(e) && Due(kind, start, es)))
  {
    assert (es + [e])[..|es|] == es;
  }

  lemma LatestInputsStep(start: Inputs, es: seq<Event>, e: Event)
    ensures LatestInputs(start, es + [e]) ==
      match e case FrontendsChanged(i) => i case OthersChanged(i) => i case _ => LatestInputs(start, es)
  {
    assert (es + [e])[..|es|] == es;
  }

  /** What a firing does: a reload, from a state whose own timer has just gone off. */
  function Fired(s: Loop, e: Event): Loop {
    if e.RecoveryFires? then s.(timers := s.timers.(recovery := false)) else s
  }

  lemma FiringClears(render: Render, retries: bool, s: Loop, e: Event)
    requires Consistent(s) && !s.stopping && Fires(e) && (s.templateChanged ==> s.pending)
    ensures var t := Next(render, retries, s, e);
      && Consistent(t) && t.inputs == s.inputs && !t.templateChanged && !t.timers.frontend && !t.timers.backend
  {
    hide HandleReload;
    if s.pending {
      ReloadVerdict(render, retries, Fired(s, e), e.env);
    } else {
      UnchangedFileIsIgnored(render, retries, Fired(s, e), e.env, None);
    }
  }

  lemma StepRemembers(render: Render, retries: bool, start: Loop, es: seq<Event>, s: Loop, e: Event)
    requires Remembers(start, es, s) && Enabled(s, e)
    requires s.templateChanged ==> s.pending
    ensures var t := Next(render, retries, s, e);
            Remembers(start, es + [e], t) && (t.templateChanged ==> t.pending)
  {
    LatestInputsStep(start.inputs, es, e);
    DueStep(FileChange, false, es, e);
    DueStep(FrontendGroup, start.timers.frontend, es, e);
    DueStep(BackendGroup, start.timers.backend, es, e);
    DueStep(AnyChange, false, es, e);
    hide Due, LatestInputs, HandleReload;
    if Fires(e) {
      FiringClears(render, retries, s, e);
    }
  }

  lemma StartRemembers(render: Render, start: Loop)
    requires Started(render, start)
    ensures Remembers(start, [], start) && (start.templateChanged ==> start.pending)
  {}

  /** At every loop top of every run, with retries or without: the loop holds the inputs
      announced last, a file change is remembered exactly until the next timer fires, and
      each debounce timer is armed exactly while an event of its group awaits it. */
  lemma {:induction false} EveryRunRemembers(render: Render, retries: bool, start: Loop, es: seq<Event>)
    requires Started(render, start)
    ensures var r := After(render, retries, start, es);
            r.Some? ==> Remembers(start, es, r.value.loop) && (r.value.loop.templateChanged ==> r.value.loop.pending)
  {
    hide Remembers, Next, Due, LatestInputs, Enabled;
    if es == [] {
      StartRemembers(render, start);
    } else {
      var front, e := es[..|es| - 1], es[|es| - 1];
      EveryRunRemembers(render, retries, start, front);
      var r := After(render, retries, start, front);
      if r.Some? && Enabled(r.value.loop, e) {
        StepRemembers(render, retries, start, front, r.value.loop, e);
        assert front + [e] == es;
      }
    }
  }

  /**
   * The next timer to fire after a file change finds a reload due, and it is about that
   * file, read then, with the inputs announced last: whatever varnishd takes of it runs
   * when the reload returns. Every firing with a reload due ends in its verdict.
   */
  lemma NextFiringTriesFile(render: Render, retries: bool, start: Loop, es: seq<Event>, e: Event)
    requires Started(render, start) && Fires(e)
    requires After(render, retries, start, es).Some? && After(render, retries, start, es + [e]).Some?
    ensures var s, t := After(render, retries, start, es).value.loop, After(render, retries, start, es + [e]).value.loop;
      && (Due(AnyChange, false, es) ==> s.pending)
      && (FileDue(es) ==> s.pending && forall env :: Enabled(s, BackendFires(env)))
      && (s.pending ==> Verdict(render, retries, Fired(s, e), e.env, t))
      && (FileDue(es) && e.env.file.Some? ==>
            var f, i := e.env.file.value, LatestInputs(start.inputs, es);
            && (Taken(render(f, i), s, e.env) ==> t.tmpl == f && t.prev == None && Some(t.running) == render(f, i))
            && (render(f, i).Some? && !Taken(render(f, i), s, e.env) && !TurnedDown(render(f, i), s, e.env) ==>
                  t.tmpl == f && t.prev == Some(Baseline(s)) && t.running == s.running && t.pending))
      && (!FileDue(es) ==> forall other ::
            Next(render, retries, s, e) == HandleReload(render, retries, Fired(s, e), e.env.(file := other)))
  {
    var all := es + [e];
    assert all[..|all| - 1] == es;
    EveryRunRemembers(render, retries, start, es);
    var s := After(render, retries, start, es).value.loop;
    FileIsDueInBackendGroup(start.timers.backend, es);
    if s.pending {
      ReloadVerdict(render, retries, Fired(s, e), e.env);
    }
    if !FileDue(es) {
      forall other ensures Next(render, retries, s, e) == HandleReload(render, retries, Fired(s, e), e.env.(file := other)) {
        UnchangedFileIsIgnored(render, retries, Fired(s, e), e.env, other);
      }
    }
    hide Due, LatestInputs, HandleReload;
  }

  lemma {:induction false} FileIsDueInBackendGroup(start: bool, es: seq<Event>)
    ensures FileDue(es) ==> Due(BackendGroup, start, es)
  {
    if es != [] {
      FileIsDueInBackendGroup(start, es[..|es| - 1]);
    }
  }
}
