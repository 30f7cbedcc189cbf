/** The proxy's runs and the update histories together: over every run, what is published and
    not allowlisted never goes upstream. */
module Enforcement {
  import opened Words
  import opened CStrings
  import opened Options
  import opened DnsWire
  import opened DomainList
  import opened BlocklistBuild
  import opened Decision
  import opened ProxyState
  import opened ProxyHistory
  import BloomFormat
  import Deployment
  import Flash = BloomUpdate

  /** The name a query asks for, as the C strings it is compared with. */
  function NameOf(q: Query): Option<Name>
    requires Received(q.buf, q.len)
  {
    var question := Parse(q.buf[..q.len]);
    if question.None? then None else Some(CStr(question.value.qname))
  }

  /** The query was never given a slot: nothing of it went upstream. */
  ghost predicate NeverForwarded(h: Hist, id: nat)
    requires HistOk(h) && id < |h.queries|
  {
    h.home[id] >= |h.s.pending|
  }

  /** What became of a query, by the list its filter was built from and the exact list. */
  ghost predicate Enforced(h: Hist, id: nat, filterList: seq<Name>)
    requires HistOk(h) && id < |h.queries| && Received(h.queries[id].buf, h.queries[id].len)
  {
    var q := h.queries[id];
    var name, d := NameOf(q), q.decider;
    && ((d.enabled && name.Some? && name.value in filterList && name.value !in d.allowed &&
         (d.exact == [] || name.value in d.exact)) ==>
          h.fates[id].BlockedByList? && NeverForwarded(h, id))
    && (h.fates[id].BlockedByList? ==>
          name.Some? && name.value !in d.allowed && (d.exact == [] || name.value in d.exact))
  }

  lemma OneVerdict(h: Hist, id: nat, lists: set<seq<Name>>, l: seq<Name>)
    requires Deployment.AllPublished(lists) && Routed(h) && DecidedRightly(h) && id < |h.queries|
    requires Deployment.Governed(lists, h.queries[id].decider)
    requires Deployment.FilterFrom(lists, h.queries[id].decider, l)
    ensures Enforced(h, id, l)
  {
    var name := NameOf(h.queries[id]);
    if name.Some? {
      Deployment.GovernedIsMembership(lists, h.queries[id].decider, l, name.value);
    }
  }

  /** The query was decided with a filter built from some published list, or with none, and every
      list the filter was built from was enforced; without a filter it was not blocked. */
  ghost predicate Ruled(h: Hist, id: nat, lists: set<seq<Name>>)
    requires HistOk(h) && id < |h.queries|
  {
    var d := h.queries[id].decider;
    && Received(h.queries[id].buf, h.queries[id].len)
    && (d.filter.Some? ==> exists l :: Deployment.FilterFrom(lists, d, l))
    && (forall l :: Deployment.FilterFrom(lists, d, l) ==> Enforced(h, id, l))
    && (d.filter.None? || !d.enabled ==> !h.fates[id].BlockedByList?)
  }

  lemma VerdictInRun(h: Hist, id: nat, lists: set<seq<Name>>, P: Decider -> bool)
    requires Deployment.AllPublished(lists) && Routed(h) && DecidedRightly(h) && DecidersAre(h, P)
    requires forall d :: P(d) ==> Deployment.Governed(lists, d)
    requires id < |h.queries|
    ensures Ruled(h, id, lists)
  {
    var d := h.queries[id].decider;
    assert P(d);
    if d.filter.Some? {
      var l :| l in lists && BloomFormat.BuiltFilter(d.filter.value, l);
      assert Deployment.FilterFrom(lists, d, l);
    }
    forall l | Deployment.FilterFrom(lists, d, l) ensures Enforced(h, id, l) {
      OneVerdict(h, id, lists, l);
    }
  }

  /** Over every run, through any reloads of settings and published lists: a name in the list the
      filter in force was built from, and in the exact list in force, and not allowlisted, was
      answered from the block list and never went upstream while blocking was on; no
      allowlisted name, and none outside the exact list, was blocked. */
  lemma PublishedNamesNeverGoUpstream(c: Config, h0: Hist, events: seq<Event>, lists: set<seq<Name>>, id: nat)
    requires ConfigOk(c) && Start(h0) && Deployment.AllPublished(lists)
    requires Deployment.Governed(lists, h0.s.decider)
    requires forall e :: e in events && e.Reloaded? ==> Deployment.Governed(lists, e.decider)
    ensures HistOk(h0)
    ensures var h := Run(c, h0, events);
            id < |h.queries| ==> Ruled(h, id, lists)
  {
    var P := (d: Decider) => Deployment.Governed(lists, d);
    RunKeepsInv(c, h0, events);
    RunKeepsDeciders(c, h0, events, P);
    EveryVerdictIsTheDeciders(c, h0, events);
    if id < |Run(c, h0, events).queries| {
      VerdictInRun(Run(c, h0, events), id, lists, P);
    }
  }

  // ---------------------------------------------- with the updater beside it

  /** A state of the system while it is updated: between two events, or at a moment of a cycle. */
  ghost predicate Observable(p: Flash.Params, shaHex: seq<byte> -> seq<byte>, s: Deployment.System,
                             updates: seq<Deployment.Event>, t: Deployment.System, k: nat)
    requires Deployment.SizeTypeOk(p) && k <= |updates|
  {
    var before := Deployment.History(p, shaHex, s, updates[..k]);
    || t == before
    || (k < |updates| && (updates[k].Checked? || updates[k].Interrupted?) &&
        Deployment.CycleOk(p, before, updates[k]) &&
        t in Deployment.UpdateCycle(p, shaHex, before, updates[k].env).moments)
  }

  /** A decider the proxy may hold: the filter and the exact list of such a state, and any
      settings and allowlist. */
  ghost predicate Follows(p: Flash.Params, shaHex: seq<byte> -> seq<byte>, s: Deployment.System,
                          updates: seq<Deployment.Event>, d: Decider)
    requires Deployment.SizeTypeOk(p)
  {
    exists t, k: nat :: k <= |updates| && Observable(p, shaHex, s, updates, t, k) &&
      d == Deployment.DeciderOf(p, t, d.enabled, d.zeroAddress, d.allowed)
  }

  lemma {:induction false} AdmissiblePrefix(p: Flash.Params, shaHex: seq<byte> -> seq<byte>, lists: set<seq<Name>>,
                                            s: Deployment.System, updates: seq<Deployment.Event>, k: nat)
    requires Deployment.SizeTypeOk(p) && k <= |updates|
    requires Deployment.AdmissibleRun(p, shaHex, lists, s, updates)
    ensures Deployment.AdmissibleRun(p, shaHex, lists, s, updates[..k])
    ensures k < |updates| ==>
              Deployment.Admissible(p, shaHex, lists, Deployment.History(p, shaHex, s, updates[..k]), updates[k])
  {
    if k == |updates| {
      assert updates[..k] == updates;
    } else if k < |updates| - 1 {
      AdmissiblePrefix(p, shaHex, lists, s, updates[..|updates| - 1], k);
      assert updates[..|updates| - 1][..k] == updates[..k];
    }
  }

  lemma ObservableEnforces(p: Flash.Params, shaHex: seq<byte> -> seq<byte>, lists: set<seq<Name>>,
                           s: Deployment.System, updates: seq<Deployment.Event>, t: Deployment.System, k: nat)
    requires Deployment.AllPublished(lists) && Deployment.Sound(p, lists, s)
    requires Deployment.AdmissibleRun(p, shaHex, lists, s, updates)
    requires k <= |updates| && Observable(p, shaHex, s, updates, t, k)
    ensures Deployment.Enforces(lists, p, t)
  {
    AdmissiblePrefix(p, shaHex, lists, s, updates, k);
    Deployment.EveryHistoryEnforces(p, shaHex, lists, s, updates[..k]);
    var before := Deployment.History(p, shaHex, s, updates[..k]);
    if t != before {
      Deployment.EveryMomentEnforces(p, shaHex, lists, before, updates[k].env, t);
    }
  }

  lemma FollowerIsGoverned(p: Flash.Params, shaHex: seq<byte> -> seq<byte>, lists: set<seq<Name>>,
                           s: Deployment.System, updates: seq<Deployment.Event>, d: Decider)
    requires Deployment.AllPublished(lists) && Deployment.Sound(p, lists, s)
    requires Deployment.AdmissibleRun(p, shaHex, lists, s, updates) && Follows(p, shaHex, s, updates, d)
    ensures Deployment.Governed(lists, d)
  {
    var t, k: nat :| k <= |updates| && Observable(p, shaHex, s, updates, t, k) &&
      d == Deployment.DeciderOf(p, t, d.enabled, d.zeroAddress, d.allowed);
    ObservableEnforces(p, shaHex, lists, s, updates, t, k);
  }

  /** The proxy running while the updater runs: over every run whose filter and exact list are
      those of some moment of an admissible update history, with any settings and allowlists,
      every query is ruled by published lists. */
  lemma UpdatedProxyEnforces(c: Config, h0: Hist, events: seq<Event>, id: nat,
                             p: Flash.Params, shaHex: seq<byte> -> seq<byte>, lists: set<seq<Name>>,
                             s: Deployment.System, updates: seq<Deployment.Event>)
    requires ConfigOk(c) && Start(h0)
    requires Deployment.AllPublished(lists) && Deployment.Sound(p, lists, s)
    requires Deployment.AdmissibleRun(p, shaHex, lists, s, updates)
    requires Follows(p, shaHex, s, updates, h0.s.decider)
    requires forall e :: e in events && e.Reloaded? ==> Follows(p, shaHex, s, updates, e.decider)
    ensures HistOk(h0)
    ensures var h := Run(c, h0, events);
            id < |h.queries| ==> Ruled(h, id, lists)
  {
    FollowerIsGoverned(p, shaHex, lists, s, updates, h0.s.decider);
    forall e | e in events && e.Reloaded? ensures Deployment.Governed(lists, e.decider) {
      FollowerIsGoverned(p, shaHex, lists, s, updates, e.decider);
    }
    PublishedNamesNeverGoUpstream(c, h0, events, lists, id);
  }

  // --------------------------------------------------------------- one list

  /** The verdict on a query where a single list is published. */
  ghost predicate ListDecides(q: Query, list: seq<Name>, blocked: bool)
    requires Received(q.buf, q.len)
  {
    var name, d := NameOf(q), q.decider;
    && (d.enabled && d.filter.Some? && name.Some? && name.value in list && name.value !in d.allowed ==> blocked)
    && (blocked && d.exact != [] ==> name.Some? && name.value in list && name.value !in d.allowed)
  }

  lemma RuledByOne(h: Hist, id: nat, list: seq<Name>, P: Decider -> bool)
    requires HistOk(h) && id < |h.queries| && Ruled(h, id, {list}) && DecidersAre(h, P)
    requires forall d :: P(d) ==> Deployment.Governed({list}, d)
    ensures ListDecides(h.queries[id], list, h.fates[id].BlockedByList?)
  {
    var d := h.queries[id].decider;
    assert P(d);
    if d.filter.Some? {
      var l :| Deployment.FilterFrom({list}, d, l);
      assert l == list && Enforced(h, id, l);
    }
  }

  /** With a single published list the verdicts are exact: while blocking is on with a filter, a
      query is answered from the block list if and only if its name is on the list and not
      allowlisted, as long as the exact list is loaded, and no listed name gets past even when
      it is not. */
  lemma OneListIsEnforced(c: Config, h0: Hist, events: seq<Event>, list: seq<Name>, id: nat)
    requires ConfigOk(c) && Start(h0) && Published(list)
    requires Deployment.Governed({list}, h0.s.decider)
    requires forall e :: e in events && e.Reloaded? ==> Deployment.Governed({list}, e.decider)
    ensures HistOk(h0)
    ensures var h := Run(c, h0, events);
            id < |h.queries| ==>
              Received(h.queries[id].buf, h.queries[id].len) &&
              ListDecides(h.queries[id], list, h.fates[id].BlockedByList?)
  {
    var P := (d: Decider) => Deployment.Governed({list}, d);
    PublishedNamesNeverGoUpstream(c, h0, events, {list}, id);
    RunKeepsDeciders(c, h0, events, P);
    var h := Run(c, h0, events);
    if id < |h.queries| {
      RuledByOne(h, id, list, P);
    }
  }
}
