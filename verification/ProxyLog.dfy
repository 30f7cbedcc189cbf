/** What the query log and the rolling window's history hold over whole runs. */
module ProxyLog {
  import opened Words
  import opened Options
  import opened CStrings
  import opened DnsWire
  import opened DnsResponse
  import opened QueryLog
  import opened ProxyState
  import opened ProxyHistory

  /** The address of an IPv4 or IPv6 client; the port and other families are not logged. */
  ghost predicate SameHost(a: ClientAddr, client: SockAddr) {
    match client
    case V4(ip, _) => a.family == 2 && a.addr == ip
    case V6(ip, _) => a.family == 10 && a.addr == ip
    case OtherFamily(_) => a.family == 0 && a.addr == []
  }

  /** An entry tells when, who asked for what, and the outcome. */
  ghost predicate Tells(e: Entry, n: Note, question: Question) {
    && e.timeUs == n.env.timeUs && SameHost(e.client, n.query.client)
    && e.qname == CStr(question.qname) && e.qtype == question.qtype && e.result == n.outcome
  }

  ghost predicate Noted(n: Note) {
    Received(n.query.buf, n.query.len) && n.query.len > 0
  }

  /** The log holds an entry for every note with a question whose attempt at the log mutex
      succeeded, in order, and no others. */
  ghost predicate LogTells(log: seq<Entry>, notes: seq<Note>)
  {
    if notes == [] then log == []
    else
      var init, n := notes[..|notes| - 1], notes[|notes| - 1];
      Noted(n) &&
      var question := Parse(n.query.buf[..n.query.len]);
      if question.Some? && n.env.taken
      then log != [] && Tells(log[|log| - 1], n, question.value) && LogTells(log[..|log| - 1], init)
      else LogTells(log, init)
  }

  /** The hours of the queries answered from the block list, in order. */
  function BlockedHours(notes: seq<Note>): seq<nat> {
    if notes == [] then []
    else
      var n := notes[|notes| - 1];
      BlockedHours(notes[..|notes| - 1]) + if n.outcome.Blocked? then [n.hour] else []
  }

  lemma LoggedTells(log: seq<Entry>, notes: seq<Note>, n: Note, question: Option<Question>)
    requires LogTells(log, notes) && Noted(n) && question == Parse(n.query.buf[..n.query.len])
    ensures LogTells(Logged(log, n.env, n.query.client, question, n.outcome), notes + [n])
  {
    assert (notes + [n])[..|notes|] == notes;
    var more := Logged(log, n.env, n.query.client, question, n.outcome);
    if question.Some? && n.env.taken {
      QuestionEndBound(n.query.buf[..n.query.len]);
      assert more[..|log|] == log;
    }
  }

  lemma HoursMore(notes: seq<Note>, n: Note)
    ensures BlockedHours(notes + [n]) == BlockedHours(notes) + if n.outcome.Blocked? then [n.hour] else []
  {
    assert (notes + [n])[..|notes|] == notes;
  }

  ghost predicate Told(h: Hist) {
    LogTells(h.s.log, h.notes) && h.s.blockedHours == BlockedHours(h.notes)
  }

  lemma NotedTold(h: Hist, r: Hist, n: Note)
    requires Told(h) && Noted(n) && r.notes == h.notes + [n]
    requires r.s.log == Logged(h.s.log, n.env, n.query.client, Parse(n.query.buf[..n.query.len]), n.outcome)
    requires r.s.blockedHours == h.s.blockedHours + if n.outcome.Blocked? then [n.hour] else []
    ensures Told(r)
  {
    LoggedTells(h.s.log, h.notes, n, Parse(n.query.buf[..n.query.len]));
    HoursMore(h.notes, n);
  }

  lemma ClientTold(h: Hist, e: Event)
    requires HistOk(h) && Told(h) && e.ClientDatagram? && Possible(h, e)
    ensures Told(OnClient(h, e))
  {
    if e.n > 0 {
      var r := OnClient(h, e);
      ArrivalNoted(h, e);
      NotedTold(h, r, r.notes[|h.notes|]);
    }
  }

  lemma ArrivalNoted(h: Hist, e: Event)
    requires HistOk(h) && e.ClientDatagram? && Possible(h, e) && e.n > 0
    ensures var r := OnClient(h, e);
            && |r.notes| == |h.notes| + 1 && r.notes[..|h.notes|] == h.notes
            && var n := r.notes[|h.notes|];
               && n.query.client == e.client && n.query.buf == e.buf && n.query.len == e.n && n.env == e.log
               && r.s.log == Logged(h.s.log, e.log, e.client, Parse(e.buf[..e.n]), n.outcome)
               && r.s.blockedHours == h.s.blockedHours + if n.outcome.Blocked? then [n.hour] else []
  {
  }

  lemma SlotTold(c: Config, h: Hist, i: nat, env: SlotEnv)
    requires Linked(h) && Told(h) && i < |h.s.pending|
    ensures Told(OnSweepSlot(c, h, i, env))
  {
    if Expired(c, h.s.pending[i], h.clock) {
      var r := OnSweepSlot(c, h, i, env);
      ExpiryNoted(c, h, i, env);
      NotedTold(h, r, r.notes[|h.notes|]);
    }
  }

  lemma ExpiryNoted(c: Config, h: Hist, i: nat, env: SlotEnv)
    requires Linked(h) && i < |h.s.pending| && Expired(c, h.s.pending[i], h.clock)
    ensures var r, q := OnSweepSlot(c, h, i, env), h.queries[h.owner[i]];
            && Received(q.buf, q.len) && q.len > 0
            && r.notes == h.notes + [Note(h.owner[i], q, Outcome.ServFail, env.log, 0)]
            && r.s.log == Logged(h.s.log, env.log, q.client, Parse(q.buf[..q.len]), Outcome.ServFail)
            && r.s.blockedHours == h.s.blockedHours
  {
    assert SlotLinked(h, i);
    var p, q := h.s.pending[i], h.queries[h.owner[i]];
    assert TimeoutResponse(p) == ErrorResponse(q.buf[..q.len], SERVFAIL);
    ErrorResponseKeepsQuestion(q.buf[..q.len], SERVFAIL);
  }

  lemma SweepTold(c: Config, h: Hist, i: nat, envs: seq<SlotEnv>)
    requires SweepInv(c, h) && Told(h) && i <= |h.s.pending| == |envs|
    ensures Told(OnSweepUpTo(c, h, i, envs))
  {
    var P := (g: Hist) => SweepInv(c, g) && Told(g);
    forall g: Hist, j: nat, env: SlotEnv | HistOk(g) && j < |g.s.pending| && P(g)
      ensures P(OnSweepSlot(c, g, j, env))
    {
      SweepSlotKeepsInv(c, g, j, env);
      SlotTold(c, g, j, env);
    }
    SweepInduction(c, h, i, envs, P);
  }

  /** Over every run the log is exactly what was noted: one entry when a query with a question
      arrives and one when it times out, each if the log mutex was obtained, with its time,
      client, name, type and outcome; and the window's history is the hours of the blocks. */
  lemma {:induction false} LogTellsTheRun(c: Config, h0: Hist, events: seq<Event>)
    requires ConfigOk(c) && Start(h0)
    ensures HistOk(h0) && Told(Run(c, h0, events))
  {
    StartInv(c, h0);
    if events != [] {
      var h, e := Run(c, h0, events[..|events| - 1]), events[|events| - 1];
      LogTellsTheRun(c, h0, events[..|events| - 1]);
      RunKeepsInv(c, h0, events[..|events| - 1]);
      if Possible(h, e) {
        match e
        case ClientDatagram(_, _, _, _, _, _, _, _) => ClientTold(h, e);
        case SweepTick(now, envs) =>
          TickedInv(c, h, now);
          SweepTold(c, h.(clock := now), |h.s.pending|, envs);
        case _ =>
      }
    }
  }

  // ------------------------------------------------------------ notes and fates

  /** A note is about a query of the run, and its outcome is one the query's fate has been. */
  ghost predicate NoteFits(h: Hist, n: Note)
    requires HistOk(h)
  {
    && n.id < |h.queries| && n.query == h.queries[n.id]
    && match n.outcome
       case Blocked => h.fates[n.id].BlockedByList?
       case Forwarded => h.fates[n.id].Waiting? || h.fates[n.id].Relayed? || h.fates[n.id].TimedOut?
       case ServFail => h.fates[n.id].RefusedFull? || h.fates[n.id].TimedOut?
  }

  function NotesOf(notes: seq<Note>, id: nat): nat {
    if notes == [] then 0 else NotesOf(notes[..|notes| - 1], id) + if notes[|notes| - 1].id == id then 1 else 0
  }

  /** Every query is noted once, and once more if it timed out. */
  ghost predicate NotesFit(h: Hist)
    requires HistOk(h)
  {
    && (forall k :: 0 <= k < |h.notes| ==> NoteFits(h, h.notes[k]))
    && (forall id :: 0 <= id < |h.queries| ==> NotesOf(h.notes, id) == if h.fates[id].TimedOut? then 2 else 1)
    && NotesOf(h.notes, |h.queries|) == 0
  }

  lemma NotesOfMore(notes: seq<Note>, n: Note, id: nat)
    ensures NotesOf(notes + [n], id) == NotesOf(notes, id) + if n.id == id then 1 else 0
  {
    assert (notes + [n])[..|notes|] == notes;
  }

  lemma ClientNotesFit(h: Hist, e: Event)
    requires HistOk(h) && NotesFit(h) && e.ClientDatagram? && Possible(h, e)
    ensures NotesFit(OnClient(h, e))
  {
    var r := OnClient(h, e);
    if e.n > 0 {
      var n := r.notes[|h.notes|];
      assert r.notes == h.notes + [n];
      NoNoteYet(h.notes, |h.queries| + 1, h);
      forall id: nat ensures NotesOf(r.notes, id) == NotesOf(h.notes, id) + if n.id == id then 1 else 0 {
        NotesOfMore(h.notes, n, id);
      }
      forall k | 0 <= k < |r.notes| ensures NoteFits(r, r.notes[k]) {
        assert k < |h.notes| ==> NoteFits(h, h.notes[k]);
      }
    } else {
      forall k | 0 <= k < |r.notes| ensures NoteFits(r, r.notes[k]) {
        assert NoteFits(h, h.notes[k]);
      }
    }
  }

  lemma {:induction false} NoNoteYet(notes: seq<Note>, id: nat, h: Hist)
    requires HistOk(h) && id > |h.queries| && notes <= h.notes
    requires forall k :: 0 <= k < |h.notes| ==> NoteFits(h, h.notes[k])
    ensures NotesOf(notes, id) == 0
  {
    if notes != [] {
      NoNoteYet(notes[..|notes| - 1], id, h);
      assert NoteFits(h, h.notes[|notes| - 1]);
    }
  }

  /** A waiting query settles. */
  lemma SettledNotesFit(h: Hist, r: Hist, id: nat, fate: Fate, notes: seq<Note>)
    requires HistOk(h) && NotesFit(h) && HistOk(r) && id < |h.queries| && h.fates[id].Waiting?
    requires r.queries == h.queries && r.fates == h.fates[id := fate] && r.notes == h.notes + notes
    requires (fate.Relayed? && notes == []) ||
             (fate.TimedOut? && |notes| == 1 && notes[0].id == id && notes[0].query == h.queries[id] &&
              notes[0].outcome.ServFail?)
    ensures NotesFit(r)
  {
    if notes == [] {
      assert r.notes == h.notes;
    } else {
      assert r.notes == h.notes + [notes[0]];
      forall j: nat ensures NotesOf(r.notes, j) == NotesOf(h.notes, j) + if id == j then 1 else 0 {
        NotesOfMore(h.notes, notes[0], j);
      }
    }
    forall k | 0 <= k < |r.notes| ensures NoteFits(r, r.notes[k]) {
      assert k < |h.notes| ==> NoteFits(h, h.notes[k]);
    }
  }

  lemma SameNotesFit(h: Hist, r: Hist)
    requires HistOk(h) && NotesFit(h) && HistOk(r)
    requires r.queries == h.queries && r.fates == h.fates && r.notes == h.notes
    ensures NotesFit(r)
  {
    forall k | 0 <= k < |r.notes| ensures NoteFits(r, r.notes[k]) {
      assert NoteFits(h, h.notes[k]);
    }
  }

  lemma UpstreamNotesFit(h: Hist, e: Event)
    requires Linked(h) && NotesFit(h) && e.UpstreamDatagram? && Possible(h, e)
    ensures NotesFit(OnUpstream(h, e))
  {
    if Matches(h.s, e.buf, e.n) {
      assert SlotLinked(h, U16(e.buf[0], e.buf[1]));
      SettledNotesFit(h, OnUpstream(h, e), h.owner[U16(e.buf[0], e.buf[1])], Relayed, []);
    } else {
      SameNotesFit(h, OnUpstream(h, e));
    }
  }

  lemma SlotNotesFit(c: Config, h: Hist, i: nat, env: SlotEnv)
    requires Linked(h) && NotesFit(h) && i < |h.s.pending|
    ensures NotesFit(OnSweepSlot(c, h, i, env))
  {
    if Expired(c, h.s.pending[i], h.clock) {
      assert SlotLinked(h, i);
      SettledNotesFit(h, OnSweepSlot(c, h, i, env), h.owner[i], TimedOut,
                      [Note(h.owner[i], h.queries[h.owner[i]], Outcome.ServFail, env.log, 0)]);
    }
  }

  lemma SweepNotesFit(c: Config, h: Hist, i: nat, envs: seq<SlotEnv>)
    requires SweepInv(c, h) && NotesFit(h) && i <= |h.s.pending| == |envs|
    ensures NotesFit(OnSweepUpTo(c, h, i, envs))
  {
    var P := (g: Hist) => SweepInv(c, g) && NotesFit(g);
    forall g: Hist, j: nat, env: SlotEnv | HistOk(g) && j < |g.s.pending| && P(g)
      ensures P(OnSweepSlot(c, g, j, env))
    {
      SweepSlotKeepsInv(c, g, j, env);
      SlotNotesFit(c, g, j, env);
    }
    SweepInduction(c, h, i, envs, P);
  }

  /** Over every run each query is noted once when it arrives, under the outcome it got then, and
      once more, as a SERVFAIL, exactly if it timed out. */
  lemma {:induction false} NotesFitTheRun(c: Config, h0: Hist, events: seq<Event>)
    requires ConfigOk(c) && Start(h0)
    ensures HistOk(h0) && NotesFit(Run(c, h0, events))
  {
    StartInv(c, h0);
    if events != [] {
      var h, e := Run(c, h0, events[..|events| - 1]), events[|events| - 1];
      NotesFitTheRun(c, h0, events[..|events| - 1]);
      RunKeepsInv(c, h0, events[..|events| - 1]);
      if Possible(h, e) {
        match e
        case ClientDatagram(_, _, _, _, _, _, _, _) => ClientNotesFit(h, e);
        case UpstreamDatagram(_, _, _, _) => UpstreamNotesFit(h, e);
        case SweepTick(now, envs) =>
          TickedInv(c, h, now);
          SameNotesFit(h, h.(clock := now));
          SweepNotesFit(c, h.(clock := now), |h.s.pending|, envs);
          SameNotesFit(OnSweepUpTo(c, h.(clock := now), |h.s.pending|, envs), Apply(c, h, e));
        case _ => SameNotesFit(h, Apply(c, h, e));
      }
    }
  }
}
