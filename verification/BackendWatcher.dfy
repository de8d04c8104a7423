/** The watcher of one backend Service: it publishes endpoints paired with the Service's
    metadata, and delegates to a child EndpointSlice watcher unless the Service is an
    ExternalName. Every method runs under the watcher's mutex, so events are atomic except
    that the consumer may empty the channel at any time. */
module BackendWatcher {
  import opened Basics
  import opened EndpointSlices

  type Metadata = map<string, string>

  /** What a lister lookup finds. `Backed` is every type of Service but ExternalName. */
  datatype View =
    | Missing
    | External(host: string, labels: Metadata, annotations: Metadata)
    | Backed(labels: Metadata, annotations: Metadata)

  datatype Event = Observe(view: View) | FromChild(child: nat, endpoints: seq<Endpoint>) | Receive

  datatype Config = Config(portOverride: string, exclude: string -> bool)

  /** Children are numbered in the order they are started. `sends` is everything ever put
      on the channel, `received` what the consumer took last. */
  datatype State = State(
    previous: seq<Endpoint>, labels: Metadata, annotations: Metadata, synced: bool,
    child: Option<nat>, started: nat,
    channel: Option<BackendState>, received: Option<BackendState>, sends: seq<BackendState>)

  const INITIAL := State([], map[], map[], false, None, 0, None, None, [])

  // ---------------------------------------------------------------------------
  // Specification of the watcher
  // ---------------------------------------------------------------------------

  function Filter(a: Metadata, exclude: string -> bool): Metadata {
    map k | k in a && !exclude(k) :: a[k]
  }

  /** The port of an ExternalName: 80 unless configured, and then by number only. */
  function ExternalPort(override: string): Option<int> {
    if override == "" then Some(80) else ParseInt32(override)
  }

  /** What a configured port means, for both kinds of Service: a 32-bit number written in
      decimal is that port; anything that is no number names a port, which an ExternalName
      does not have. */
  lemma PortOverrideMeans(override: string, n: int, ports: seq<Port>)
    ensures override == Decimal(n) && IsInt32(n) ==>
              ExternalPort(override) == Some(n) && ResolvePort(ports, override) == n
    ensures override != "" && !IntLiteral(override) ==>
              ExternalPort(override) == None && ResolvePort(ports, override) == PortNamed(ports, override)
  {
    hide IntLiteral, LiteralValue, Decimal, PortNamed;
    DecimalParses(n);
    if override == Decimal(n) {
      DecimalIsNotEmpty(n);
    }
  }

  lemma DecimalIsNotEmpty(n: int)
    ensures Decimal(n) != ""
  {
    MinusIffNegative(n);
  }

  const EXTERNAL_NAME := "external"

  function ExternalEndpoints(host: string, o: string): seq<Endpoint> {
    if host == "" || ExternalPort(o).None? then []
    else [Endpoint(host, ExternalPort(o).value, EXTERNAL_NAME, "", "", [])]
  }

  function Put(s: State, eps: seq<Endpoint>): State {
    var v := BackendState(eps, s.labels, s.annotations);
    s.(channel := Some(v), sends := s.sends + [v])
  }

  function Resend(s: State): State {
    Put(s, s.previous)
  }

  function Send(s: State, eps: seq<Endpoint>): State {
    if s.synced && eps == s.previous then s else Put(s.(synced := true, previous := eps), eps)
  }

  function WithMetadata(s: State, labels: Metadata, annotations: Metadata): State {
    var s1 := s.(labels := labels, annotations := annotations);
    if (s.labels != labels || s.annotations != annotations) && s.synced then Resend(s1) else s1
  }

  function ObserveStep(s: State, v: View, c: Config): State {
    match v
    case Missing =>
      var cleared := s.labels != map[] || s.annotations != map[];
      var s1 := s.(labels := map[], annotations := map[], child := None);
      if cleared && s.synced && s.previous == [] then Resend(s1) else Send(s1, [])
    case External(host, labels, annotations) =>
      Send(WithMetadata(s, labels, Filter(annotations, c.exclude)).(child := None),
           ExternalEndpoints(host, c.portOverride))
    case Backed(labels, annotations) =>
      var s1 := WithMetadata(s, labels, Filter(annotations, c.exclude));
      if s1.child.Some? then s1 else s1.(child := Some(s1.started), started := s1.started + 1)
  }

  function Step(s: State, e: Event, c: Config): State {
    match e
    case Observe(v) => ObserveStep(s, v, c)
    case FromChild(child, eps) => if s.child == Some(child) then Send(s, eps) else s
    case Receive => if s.channel.Some? then s.(channel := None, received := s.channel) else s
  }

  function After(es: seq<Event>, c: Config): State {
    if es == [] then INITIAL else Step(After(es[..|es| - 1], c), es[|es| - 1], c)
  }

  // ---------------------------------------------------------------------------
  // What is known of the Service, with no channel, flag, deduplication or retention
  // ---------------------------------------------------------------------------

  /** The latest view; while the Service is backed, the child in charge and its latest
      report, if it has made one. */
  datatype Truth = Truth(view: Option<View>, child: Option<nat>, started: nat, report: Option<seq<Endpoint>>)

  function TruthStep(t: Truth, e: Event): Truth {
    match e
    case Observe(v) =>
      if !v.Backed? then Truth(Some(v), None, t.started, None)
      else if t.child.Some? then t.(view := Some(v))
      else Truth(Some(v), Some(t.started), t.started + 1, None)
    case FromChild(child, eps) => if t.child == Some(child) then t.(report := Some(eps)) else t
    case Receive => t
  }

  function TruthAfter(es: seq<Event>): Truth {
    if es == [] then Truth(None, None, 0, None)
    else TruthStep(TruthAfter(es[..|es| - 1]), es[|es| - 1])
  }

  /** The endpoints of the Service as last viewed; None as long as a backed Service's child
      has not reported. */
  function Established(t: Truth, c: Config): Option<seq<Endpoint>> {
    match t.view
    case None => None
    case Some(Missing) => Some([])
    case Some(External(host, _, _)) => Some(ExternalEndpoints(host, c.portOverride))
    case Some(Backed(_, _)) => t.report
  }

  function LabelsOf(t: Truth): Metadata {
    if t.view.None? || t.view.value.Missing? then map[] else t.view.value.labels
  }

  function AnnotationsOf(t: Truth, c: Config): Metadata {
    if t.view.None? || t.view.value.Missing? then map[] else Filter(t.view.value.annotations, c.exclude)
  }

  /** The endpoints established last, perhaps under an earlier view. */
  function LastEstablished(es: seq<Event>, c: Config): Option<seq<Endpoint>> {
    var now := Established(TruthAfter(es), c);
    if now.Some? || es == [] then now else LastEstablished(es[..|es| - 1], c)
  }

  /** What a consumer should hold: the current metadata, with the endpoints established
      last. Those are current too unless a backed Service's child has yet to report. */
  function Latest(es: seq<Event>, c: Config): Option<BackendState> {
    var last, t := LastEstablished(es, c), TruthAfter(es);
    if last.None? then None else Some(BackendState(last.value, LabelsOf(t), AnnotationsOf(t, c)))
  }

  /** A pair the Service can have had under its latest view: until a child reports, no
      endpoints are known. */
  predicate Coherent(x: BackendState, t: Truth, c: Config) {
    && x.labels == LabelsOf(t) && x.annotations == AnnotationsOf(t, c)
    && x.endpoints == if Established(t, c).Some? then Established(t, c).value else []
  }

  /** How the watcher's state relates to the truth; `last` are the endpoints established last. */
  ghost predicate Faithful(s: State, t: Truth, last: Option<seq<Endpoint>>, c: Config) {
    && s.labels == LabelsOf(t) && s.annotations == AnnotationsOf(t, c)
    && s.child == t.child && s.started == t.started
    && s.synced == last.Some? && s.previous == (if last.Some? then last.value else [])
    && (s.sends != [] <==> s.synced)
    && (var latest := BackendState(s.previous, s.labels, s.annotations);
        && (s.synced ==> s.sends[|s.sends| - 1] == latest)
        && (if s.channel.Some? then s.synced && s.channel.value == latest
            else s.received == if s.synced then Some(latest) else None))
  }

  function LastStep(last: Option<seq<Endpoint>>, t: Truth, c: Config): Option<seq<Endpoint>> {
    if Established(t, c).Some? then Established(t, c) else last
  }

  /** A child is in charge exactly while the Service is backed; only it reports. Endpoints of
      an earlier view that are still in use are those of an ExternalName. */
  ghost predicate Grounded(t: Truth, last: Option<seq<Endpoint>>, c: Config) {
    && (t.child.Some? <==> t.view.Some? && t.view.value.Backed?)
    && (t.report.Some? ==> t.child.Some?) && (t.view.None? ==> last.None?)
    && (Established(t, c).Some? ==> last == Established(t, c))
    && (Established(t, c).None? && last.Some? && last.value != [] ==>
          exists host :: last.value == ExternalEndpoints(host, c.portOverride))
  }

  lemma GroundedStep(t: Truth, last: Option<seq<Endpoint>>, e: Event, c: Config)
    requires Grounded(t, last, c)
    ensures Grounded(TruthStep(t, e), LastStep(last, TruthStep(t, e), c), c)
  {
    hide ExternalEndpoints;
    if t.view.Some? && t.view.value.External? && last.Some? {
      assert last.value == ExternalEndpoints(t.view.value.host, c.portOverride);
    }
  }

  lemma MetadataStep(s: State, labels: Metadata, annotations: Metadata)
    ensures var s' := WithMetadata(s, labels, annotations);
      && s' == s.(labels := labels, annotations := annotations, channel := s'.channel, sends := s'.sends)
      && (if (s.labels != labels || s.annotations != annotations) && s.synced then
            s'.sends == s.sends + [BackendState(s.previous, labels, annotations)]
            && s'.channel == Some(BackendState(s.previous, labels, annotations))
          else s'.sends == s.sends && s'.channel == s.channel)
  {}

  lemma ExternalKeepsFaith(s: State, t: Truth, last: Option<seq<Endpoint>>, v: View, c: Config)
    requires Faithful(s, t, last, c) && v.External?
    ensures var t' := TruthStep(t, Observe(v));
            Faithful(ObserveStep(s, v, c), t', LastStep(last, t', c), c)
  {
    hide Filter, ExternalEndpoints, WithMetadata;
    MetadataStep(s, v.labels, Filter(v.annotations, c.exclude));
  }

  lemma BackedKeepsFaith(s: State, t: Truth, last: Option<seq<Endpoint>>, v: View, c: Config)
    requires Faithful(s, t, last, c) && Grounded(t, last, c) && v.Backed?
    ensures var t' := TruthStep(t, Observe(v));
            Faithful(ObserveStep(s, v, c), t', LastStep(last, t', c), c)
  {
    hide Filter, ExternalEndpoints, WithMetadata;
    MetadataStep(s, v.labels, Filter(v.annotations, c.exclude));
  }

  lemma MissingKeepsFaith(s: State, t: Truth, last: Option<seq<Endpoint>>, c: Config)
    requires Faithful(s, t, last, c)
    ensures var t' := TruthStep(t, Observe(Missing));
            Faithful(ObserveStep(s, Missing, c), t', LastStep(last, t', c), c)
  {}

  lemma ReportKeepsFaith(s: State, t: Truth, last: Option<seq<Endpoint>>, child: nat, eps: seq<Endpoint>, c: Config)
    requires Faithful(s, t, last, c) && Grounded(t, last, c)
    ensures var t' := TruthStep(t, FromChild(child, eps));
            Faithful(Step(s, FromChild(child, eps), c), t', LastStep(last, t', c), c)
  {
    hide Filter, ExternalEndpoints;
  }

  lemma StepKeepsFaith(s: State, t: Truth, last: Option<seq<Endpoint>>, e: Event, c: Config)
    requires Faithful(s, t, last, c) && Grounded(t, last, c)
    ensures Faithful(Step(s, e, c), TruthStep(t, e), LastStep(last, TruthStep(t, e), c), c)
  {
    match e
    case Observe(v) =>
      hide Faithful, Grounded, ObserveStep, TruthStep, LastStep;
      if v.Missing? {
        MissingKeepsFaith(s, t, last, c);
      } else if v.External? {
        ExternalKeepsFaith(s, t, last, v, c);
      } else {
        BackedKeepsFaith(s, t, last, v, c);
      }
    case FromChild(child, eps) => ReportKeepsFaith(s, t, last, child, eps, c);
    case Receive =>
  }

  lemma {:induction false} HistoryIsFaithful(es: seq<Event>, c: Config)
    ensures Faithful(After(es, c), TruthAfter(es), LastEstablished(es, c), c)
    ensures Grounded(TruthAfter(es), LastEstablished(es, c), c)
  {
    if es != [] {
      hide Faithful, Grounded, Step, TruthStep, Established;
      var front, e := es[..|es| - 1], es[|es| - 1];
      HistoryIsFaithful(front, c);
      StepKeepsFaith(After(front, c), TruthAfter(front), LastEstablished(front, c), e, c);
      GroundedStep(TruthAfter(front), LastEstablished(front, c), e, c);
    }
  }

  /**
   * After any events, the value put on the channel last pairs the Service's current metadata
   * with the endpoints established last, and a consumer that has emptied the channel holds
   * exactly that value; nothing is put there before endpoints are established. The endpoints
   * are those of the latest view, except while a backed Service's child has yet to report:
   * then they may still be those of the ExternalName it was before.
   */
  lemma LatestSnapshot(es: seq<Event>, c: Config)
    ensures var s, t, latest := After(es, c), TruthAfter(es), Latest(es, c);
      && (if s.sends == [] then None else Some(s.sends[|s.sends| - 1])) == latest
      && (if s.channel.Some? then s.channel else s.received) == latest
      && (Established(t, c).Some? ==> latest.Some? && Coherent(latest.value, t, c))
      && (latest.Some? && !Coherent(latest.value, t, c) ==>
            && t.child.Some? && t.report.None?
            && exists host :: latest.value.endpoints == ExternalEndpoints(host, c.portOverride))
  {
    HistoryIsFaithful(es, c);
    hide ExternalEndpoints, After, TruthAfter, LastEstablished, Filter;
  }

  // ---------------------------------------------------------------------------
  // What the consumer holds, told by the latest view
  // ---------------------------------------------------------------------------

  function LatestView(es: seq<Event>): Option<View> {
    if es == [] then None
    else if es[|es| - 1].Observe? then Some(es[|es| - 1].view)
    else LatestView(es[..|es| - 1])
  }

  lemma {:induction false} TruthHasLatestView(es: seq<Event>)
    ensures TruthAfter(es).view == LatestView(es)
  {
    if es != [] {
      TruthHasLatestView(es[..|es| - 1]);
    }
  }

  /** The value on the channel, or if it was taken the one the consumer took last. */
  function Held(s: State): Option<BackendState> {
    if s.channel.Some? then s.channel else s.received
  }

  /** All annotations but the excluded ones. */
  ghost predicate Kept(kept: Metadata, all: Metadata, exclude: string -> bool) {
    && (forall k :: k in kept <==> k in all && !exclude(k))
    && (forall k | k in kept :: kept[k] == all[k])
  }

  /**
   * After any events, if the latest lookup found an ExternalName: its metadata and one
   * endpoint, its host at the port configured as a decimal 32-bit number, or at port 80 if
   * none is configured; no endpoint if it names no host, or if the configured port is not
   * such a number.
   */
  lemma ExternalNameIsHeld(es: seq<Event>, c: Config, host: string, labels: Metadata, annotations: Metadata)
    requires LatestView(es) == Some(External(host, labels, annotations))
    ensures var held := Held(After(es, c));
      && held.Some? && held.value.labels == labels && Kept(held.value.annotations, annotations, c.exclude)
      && (forall n | host != "" && c.portOverride == Decimal(n) && IsInt32(n) ::
            held.value.endpoints == [Endpoint(host, n, "external", "", "", [])])
      && (host != "" && c.portOverride == "" ==>
            held.value.endpoints == [Endpoint(host, 80, "external", "", "", [])])
      && (host == "" || (c.portOverride != "" && (IntLiteral(c.portOverride) ==> !IsInt32(LiteralValue(c.portOverride)))) ==>
            held.value.endpoints == [])
      && (host != "" && IntLiteral(c.portOverride) && IsInt32(LiteralValue(c.portOverride)) ==>
            held.value.endpoints == [Endpoint(host, LiteralValue(c.portOverride), "external", "", "", [])])
  {
    TruthHasLatestView(es);
    LatestSnapshot(es, c);
    forall n ensures c.portOverride == Decimal(n) && IsInt32(n) ==> ExternalPort(c.portOverride) == Some(n) {
      PortOverrideMeans(c.portOverride, n, []);
    }
    hide After, TruthAfter, LatestView, Latest, Decimal, IntLiteral, LiteralValue;
  }

  /** After any events, if the latest lookup found no Service: no metadata, no endpoints. */
  lemma MissingServiceIsHeld(es: seq<Event>, c: Config)
    requires LatestView(es) == Some(Missing)
    ensures Held(After(es, c)) == Some(BackendState([], map[], map[]))
  {
    TruthHasLatestView(es);
    LatestSnapshot(es, c);
    hide After, TruthAfter, LatestView, Latest;
  }

  /** Lookups that found the Service backed, and reports, since it became backed. */
  predicate OnlyBacked(es: seq<Event>) {
    forall e | e in es && e.Observe? :: e.view.Backed?
  }

  /** Once the Service is backed, its one child watcher is heard: from its first report on,
      whatever lookups, consumption and deaf children's reports come in between, the consumer
      holds the endpoints reported last with the metadata found last. */
  lemma BackedServiceIsHeld(es: seq<Event>, later: seq<Event>, c: Config, child: nat, eps: seq<Endpoint>)
    requires LatestView(es).Some? && LatestView(es).value.Backed? && After(es, c).child == Some(child)
    requires OnlyBacked(later) && forall e | e in later && e.FromChild? :: e.child != child
    ensures var all := es + [FromChild(child, eps)] + later;
            var held := Held(After(all, c));
      && LatestView(all).Some? && LatestView(all).value.Backed?
      && held.Some? && held.value.endpoints == eps && held.value.labels == LatestView(all).value.labels
      && Kept(held.value.annotations, LatestView(all).value.annotations, c.exclude)
  {
    var all := es + [FromChild(child, eps)] + later;
    HistoryIsFaithful(es, c);
    ReportStays(es, later, c, child, eps);
    TruthHasLatestView(all);
    LatestSnapshot(all, c);
    hide After, TruthAfter, LatestView, Latest;
  }

  lemma {:induction false} ReportStays(es: seq<Event>, later: seq<Event>, c: Config, child: nat, eps: seq<Endpoint>)
    requires TruthAfter(es).child == Some(child) && LatestView(es).Some? && LatestView(es).value.Backed?
    requires OnlyBacked(later) && forall e | e in later && e.FromChild? :: e.child != child
    ensures var t := TruthAfter(es + [FromChild(child, eps)] + later);
            t.child == Some(child) && t.report == Some(eps) && t.view.Some? && t.view.value.Backed?
  {
    var all := es + [FromChild(child, eps)] + later;
    TruthHasLatestView(es);
    if later == [] {
      assert all[..|all| - 1] == es;
    } else {
      var front, e := later[..|later| - 1], later[|later| - 1];
      assert later == front + [e];
      assert all[..|all| - 1] == es + [FromChild(child, eps)] + front;
      ReportStays(es, front, c, child, eps);
      assert e in later;
    }
  }

  /** What a step does to the child: it stops it, starts the next one, or leaves it. */
  lemma ChildStep(s: State, e: Event, c: Config)
    ensures var s' := Step(s, e, c);
      || (s'.child == s.child && s'.started == s.started)
      || (s'.child == None && s'.started == s.started)
      || (s.child == None && s'.child == Some(s.started) && s'.started == s.started + 1)
  {
    hide Filter, ExternalEndpoints;
  }

  lemma {:induction false} ChildrenAreNumbered(es: seq<Event>, c: Config, n: nat)
    requires n <= |es|
    ensures var s := After(es, c);
      && (s.child.Some? ==> s.child.value + 1 == s.started)
      && After(es[..n], c).started <= s.started
      && (After(es[..n], c).started == s.started && After(es[..n], c).child.None? ==> s.child.None?)
    decreases |es|
  {
    hide Step;
    if es == [] {
      assert es[..n] == es;
    } else {
      var front := es[..|es| - 1];
      ChildStep(After(front, c), es[|es| - 1], c);
      if n < |es| {
        assert front[..n] == es[..n];
        ChildrenAreNumbered(front, c, n);
      } else {
        assert es[..n] == es;
        ChildrenAreNumbered(front, c, |front|);
      }
    }
  }

  /** Once a child has been replaced or stopped, nothing it still has in flight changes
      anything, however much later it arrives. */
  lemma SupersededChildIsMute(es: seq<Event>, n: nat, c: Config, child: nat, eps: seq<Endpoint>)
    requires n <= |es|
    requires child < After(es[..n], c).started && After(es[..n], c).child != Some(child)
    ensures Step(After(es, c), FromChild(child, eps), c) == After(es, c)
  {
    ChildrenAreNumbered(es, c, n);
    ChildrenAreNumbered(es[..n], c, n);
    assert es[..n][..n] == es[..n];
    hide After;
  }

  // ---------------------------------------------------------------------------
  // Torn pairs
  // ---------------------------------------------------------------------------

  /** A lookup whose new metadata is sent with endpoints that do not belong to it: an
      ExternalName with new endpoints as well, or a backed Service whose child has not
      reported while endpoints of an earlier ExternalName are still in use. */
  predicate Tears(s: State, t: Truth, v: View, c: Config) {
    && s.synced && !v.Missing?
    && (v.labels != s.labels || Filter(v.annotations, c.exclude) != s.annotations)
    && (if v.External? then ExternalEndpoints(v.host, c.portOverride) != s.previous
        else t.report.None? && s.previous != [])
  }

  /** What an event puts on the channel. */
  function NewSends(s: State, e: Event, c: Config): seq<BackendState> {
    var s' := Step(s, e, c);
    if |s.sends| <= |s'.sends| then s'.sends[|s.sends|..] else []
  }

  lemma SendsAre(s: State, e: Event, c: Config)
    ensures Step(s, e, c).sends == s.sends + NewSends(s, e, c)
    ensures |NewSends(s, e, c)| <= 2
  {
    hide Filter, ExternalEndpoints;
  }

  lemma LookupSends(s: State, v: View, c: Config)
    requires !v.Missing?
    ensures var f := Filter(v.annotations, c.exclude);
      var changed := (v.labels != s.labels || f != s.annotations) && s.synced;
      NewSends(s, Observe(v), c) ==
        (if changed then [BackendState(s.previous, v.labels, f)] else [])
        + (if v.Backed? then []
           else
             var eps := ExternalEndpoints(v.host, c.portOverride);
             if s.synced && eps == s.previous then [] else [BackendState(eps, v.labels, f)])
  {
    hide Filter, ExternalEndpoints;
  }

  lemma OtherSends(s: State, e: Event, c: Config)
    requires e == Observe(Missing) || !e.Observe?
    ensures var s' := Step(s, e, c);
      forall x | x in NewSends(s, e, c) ::
        && s'.synced && x == BackendState(s'.previous, s'.labels, s'.annotations)
        && (e.FromChild? ==> s.child == Some(e.child) && s'.previous == e.endpoints)
  {}

  /** What a report sends is coherent; so is what a lookup that finds nothing sends. */
  lemma OtherSendsAreCoherent(es: seq<Event>, e: Event, c: Config)
    requires e == Observe(Missing) || !e.Observe?
    ensures forall x | x in NewSends(After(es, c), e, c) :: Coherent(x, TruthAfter(es + [e]), c)
  {
    var all := es + [e];
    assert all[..|all| - 1] == es;
    OtherSends(After(es, c), e, c);
    HistoryIsFaithful(es, c);
    HistoryIsFaithful(all, c);
    hide NewSends, Filter, ExternalEndpoints, Step, LastEstablished;
  }

  lemma TornOrRight(sends: seq<BackendState>, torn: BackendState, right: BackendState, first: bool, second: bool)
    requires sends == (if first then [torn] else []) + (if second then [right] else [])
    requires first ==> (torn == right <==> !second)
    ensures (forall x | x in sends :: x == right) <==> !(first && second)
    ensures first && second ==> sends == [torn, right]
  {
    if first {
      assert sends[0] == torn && sends[0] in sends;
    }
  }

  lemma ExternalTears(s: State, t: Truth, v: View, c: Config)
    requires v.External?
    ensures var f, eps := Filter(v.annotations, c.exclude), ExternalEndpoints(v.host, c.portOverride);
      var torn, right := BackendState(s.previous, v.labels, f), BackendState(eps, v.labels, f);
      && ((forall x | x in NewSends(s, Observe(v), c) :: x == right) <==> !Tears(s, t, v, c))
      && (Tears(s, t, v, c) ==> NewSends(s, Observe(v), c) == [torn, right])
  {
    hide NewSends, Filter, ExternalEndpoints;
    LookupSends(s, v, c);
    var f, eps := Filter(v.annotations, c.exclude), ExternalEndpoints(v.host, c.portOverride);
    TornOrRight(NewSends(s, Observe(v), c), BackendState(s.previous, v.labels, f), BackendState(eps, v.labels, f),
                (v.labels != s.labels || f != s.annotations) && s.synced, !(s.synced && eps == s.previous));
  }

  lemma BackedTears(s: State, t: Truth, last: Option<seq<Endpoint>>, v: View, c: Config)
    requires v.Backed? && Faithful(s, t, last, c) && Grounded(t, last, c)
    ensures var t', sends := TruthStep(t, Observe(v)), NewSends(s, Observe(v), c);
      && ((forall x | x in sends :: Coherent(x, t', c)) <==> !Tears(s, t, v, c))
      && (Tears(s, t, v, c) ==>
            && sends == [BackendState(s.previous, v.labels, Filter(v.annotations, c.exclude))]
            && exists host :: s.previous == ExternalEndpoints(host, c.portOverride))
  {
    hide NewSends, Filter, ExternalEndpoints;
    LookupSends(s, v, c);
    var sends := NewSends(s, Observe(v), c);
    if sends != [] {
      assert sends[0] in sends;
    }
  }

  /**
   * Exactly which lookups put a pair on the channel that the Service cannot have had: those
   * that tear. An ExternalName sends the right pair at once behind the torn one; a backed
   * Service keeps the ExternalName's endpoints until its child reports. A lookup sends at
   * most two values.
   */
  lemma TornSnapshotIff(es: seq<Event>, v: View, c: Config)
    requires !v.Missing?
    ensures var s, t := After(es, c), TruthAfter(es);
      var sends, t' := NewSends(s, Observe(v), c), TruthAfter(es + [Observe(v)]);
      && After(es + [Observe(v)], c).sends == s.sends + sends && |sends| <= 2
      && ((forall x | x in sends :: Coherent(x, t', c)) <==> !Tears(s, t, v, c))
      && (Tears(s, t, v, c) ==>
            && sends[0] == BackendState(s.previous, LabelsOf(t'), AnnotationsOf(t', c))
            && (v.External? ==> |sends| == 2 && Coherent(sends[1], t', c))
            && (v.Backed? ==> |sends| == 1 && exists host :: s.previous == ExternalEndpoints(host, c.portOverride)))
  {
    var all := es + [Observe(v)];
    var s, t := After(es, c), TruthAfter(es);
    assert all[..|all| - 1] == es;
    HistoryIsFaithful(es, c);
    SendsAre(s, Observe(v), c);
    if v.External? {
      ExternalTears(s, t, v, c);
      CoherentExternal(t, v, c);
    } else {
      BackedTears(s, t, LastEstablished(es, c), v, c);
    }
    hide Filter, ExternalEndpoints, NewSends, Step, Tears, LastEstablished, Faithful, Grounded, Coherent;
  }

  lemma CoherentExternal(t: Truth, v: View, c: Config)
    requires v.External?
    ensures var right := BackendState(ExternalEndpoints(v.host, c.portOverride), v.labels, Filter(v.annotations, c.exclude));
      forall x :: Coherent(x, TruthStep(t, Observe(v)), c) <==> x == right
  {
    hide Filter, ExternalEndpoints;
  }

  // Three concrete torn pairs, none of which the Service ever had.

  function Named(host: string): seq<Endpoint> {
    [Endpoint(host, 80, EXTERNAL_NAME, "", "", [])]
  }

  const PLAIN := Config("", _ => false)

  const LABELLED: Metadata := map["x" := "1"]

  lemma AfterSnoc(es: seq<Event>, e: Event, c: Config)
    ensures After(es + [e], c) == Step(After(es, c), e, c)
  {
    assert (es + [e])[..|es|] == es;
  }

  lemma FilterNothing(exclude: string -> bool)
    ensures Filter(map[], exclude) == map[]
  {}

  /** After the first lookup of an ExternalName without metadata. */
  lemma AfterPlainName()
    ensures var first := BackendState(Named("a.example"), map[], map[]);
      After([Observe(External("a.example", map[], map[]))], PLAIN)
      == State(Named("a.example"), map[], map[], true, None, 0, Some(first), None, [first])
  {
    var e := Observe(External("a.example", map[], map[]));
    AfterSnoc([], e, PLAIN);
    assert [] + [e] == [e];
    FilterNothing(PLAIN.exclude);
    hide Filter;
  }

  /** An ExternalName that gets a new host and a new label. */
  lemma TornByNewHost()
    ensures
      After([Observe(External("a.example", map[], map[])), Observe(External("b.example", LABELLED, map[]))], PLAIN).sends
      == [BackendState(Named("a.example"), map[], map[]),
          BackendState(Named("a.example"), LABELLED, map[]), BackendState(Named("b.example"), LABELLED, map[])]
  {
    var e1, e2 := Observe(External("a.example", map[], map[])), Observe(External("b.example", LABELLED, map[]));
    AfterPlainName();
    AfterSnoc([e1], e2, PLAIN);
    assert [e1] + [e2] == [e1, e2] && "x" in LABELLED;
    assert Named("b.example")[0].host == "b.example" && Named("b.example") != Named("a.example");
    FilterNothing(PLAIN.exclude);
    hide Filter, After;
  }

  /** An ExternalName that becomes a backed Service with a new label. */
  lemma TornByNewType()
    ensures After([Observe(External("a.example", map[], map[])), Observe(Backed(LABELLED, map[]))], PLAIN).sends
      == [BackendState(Named("a.example"), map[], map[]), BackendState(Named("a.example"), LABELLED, map[])]
  {
    var e1, e2 := Observe(External("a.example", map[], map[])), Observe(Backed(LABELLED, map[]));
    AfterPlainName();
    AfterSnoc([e1], e2, PLAIN);
    assert [e1] + [e2] == [e1, e2] && "x" in LABELLED;
    FilterNothing(PLAIN.exclude);
    hide Filter, After;
  }

  /** An ExternalName that becomes a backed Service first, and gets a new label before the
      child has reported. */
  lemma TornBeforeFirstReport()
    ensures
      After([Observe(External("a.example", map[], map[])), Observe(Backed(map[], map[])), Observe(Backed(LABELLED, map[]))],
            PLAIN).sends
      == [BackendState(Named("a.example"), map[], map[]), BackendState(Named("a.example"), LABELLED, map[])]
  {
    var e1, e2, e3 := Observe(External("a.example", map[], map[])), Observe(Backed(map[], map[])), Observe(Backed(LABELLED, map[]));
    AfterPlainName();
    AfterSnoc([e1], e2, PLAIN);
    AfterSnoc([e1, e2], e3, PLAIN);
    assert [e1] + [e2] == [e1, e2] && [e1, e2] + [e3] == [e1, e2, e3] && "x" in LABELLED;
    FilterNothing(PLAIN.exclude);
    hide Filter, After;
  }

  // ---------------------------------------------------------------------------
  // The watcher
  // ---------------------------------------------------------------------------

  class Watcher {
    const config: Config
    var previous: seq<Endpoint>
    var labels: Metadata
    var annotations: Metadata
    var synced: bool
    var childWatcher: Option<nat>
    var started: nat
    var channel: Option<BackendState>
    ghost var received: Option<BackendState>
    ghost var sends: seq<BackendState>

    ghost function Now(): State
      reads this
    {
      State(previous, labels, annotations, synced, childWatcher, started, channel, received, sends)
    }

    constructor (c: Config)
      ensures config == c && Now() == INITIAL
    {
      config := c;
      previous, labels, annotations, synced, childWatcher, started := [], map[], map[], false, None, 0;
      channel, received, sends := None, None, [];
    }

    method FilterAnnotations(a: Metadata) returns (filtered: Metadata)
      ensures filtered == Filter(a, config.exclude)
    {
      filtered := map[];
      var todo := a.Keys;
      while todo != {}
        invariant todo <= a.Keys
        invariant filtered == map k | k in a && k !in todo && !config.exclude(k) :: a[k]
        decreases |todo|
      {
        var k :| k in todo;
        todo := todo - {k};
        if !config.exclude(k) {
          filtered := filtered[k := a[k]];
        }
      }
    }

    /** Port 80 by default, otherwise the number configured; a name is an error. */
    method ResolveExternalPort() returns (port: Option<int>)
      ensures config.portOverride == "" ==> port == Some(80)
      ensures forall n | config.portOverride == Decimal(n) && IsInt32(n) :: port == Some(n)
      ensures config.portOverride != "" && !IntLiteral(config.portOverride) ==> port == None
      ensures port == ExternalPort(config.portOverride)
    {
      forall n | config.portOverride == Decimal(n) && IsInt32(n) ensures ExternalPort(config.portOverride) == Some(n) {
        PortOverrideMeans(config.portOverride, n, []);
      }
      PortOverrideMeans(config.portOverride, 0, []);
      hide Decimal, IntLiteral, ParseInt32, ResolvePort;
      if config.portOverride == "" {
        return Some(80);
      }
      port := ParseInt32(config.portOverride);
    }

    method CoalescingSend(v: BackendState)
      modifies `channel, `sends
      ensures channel == Some(v) && sends == old(sends) + [v]
    {
      if channel.Some? {
        channel := None;
      }
      channel := Some(v);
      sends := sends + [v];
    }

    method ResendLocked()
      modifies `channel, `sends
      ensures Now() == Resend(old(Now()))
    {
      CoalescingSend(BackendState(previous, labels, annotations));
    }

    method SendLocked(endpoints: seq<Endpoint>)
      modifies `channel, `sends, `synced, `previous
      ensures Now() == Send(old(Now()), endpoints)
    {
      if synced && endpoints == previous {
        return;
      }
      synced := true;
      previous := endpoints;
      CoalescingSend(BackendState(endpoints, labels, annotations));
    }

    method SyncService(v: View)
      modifies this
      ensures Now() == Step(old(Now()), Observe(v), config)
    {
      hide Filter, ExternalPort;
      if v.Missing? {
        var cleared := labels != map[] || annotations != map[];
        labels, annotations, childWatcher := map[], map[], None;
        if cleared && synced && previous == [] {
          ResendLocked();
        } else {
          SendLocked([]);
        }
        return;
      }
      var newAnnotations := FilterAnnotations(v.annotations);
      var changed := labels != v.labels || annotations != newAnnotations;
      labels, annotations := v.labels, newAnnotations;
      if changed && synced {
        ResendLocked();
      }
      if v.External? {
        childWatcher := None;
        if v.host == "" {
          SendLocked([]);
          return;
        }
        var port := ResolveExternalPort();
        if port.None? {
          SendLocked([]);
          return;
        }
        SendLocked([Endpoint(v.host, port.value, EXTERNAL_NAME, "", "", [])]);
        return;
      }
      if childWatcher.None? {
        childWatcher, started := Some(started), started + 1;
      }
    }

    /** An update forwarded from a child; a child that is not the current one is ignored. */
    method SendFromChild(child: nat, endpoints: seq<Endpoint>)
      modifies this
      ensures Now() == Step(old(Now()), FromChild(child, endpoints), config)
    {
      if childWatcher != Some(child) {
        return;
      }
      SendLocked(endpoints);
    }
  }
}
