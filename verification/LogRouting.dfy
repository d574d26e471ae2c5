/**
 Routing records to sinks (log/LogManager.cpp GetLogger, log/SinkInfo.h): the filters that
 activated loggers put on their sinks, and which records reach which sink.

 `wired` remembers each activated logger as it was when it was activated.
 */
module LogRouting {
  import opened Collections
  import opened LoggerNames
  import opened LoggerIds
  import opened LogConfig

  // ----- Invariants over the manager's tables -----

  ghost predicate InfosOk(infos: map<string, LoggerInfo>, configured: set<string>, ids: map<string, nat>) {
    && infos.Keys == configured + {ROOT}
    && infos[ROOT].id == 0 && infos[ROOT].level == 0
    && (if ROOT in configured then infos[ROOT].fileId != 0 else infos[ROOT].(active := false) == NEW_INFO)
    && (forall n :: n in configured && n != ROOT ==>
          n in ids && infos[n].id == ids[n] && infos[n].level == Level(n))
  }

  // Some activated logger that is linked to the sink covers the record and lets it through.
  ghost predicate Reaches(wired: map<string, LoggerInfo>, sink: string, r: Record) {
    exists n :: n in wired && Covers(wired[n], sink, r)
  }

  ghost predicate Covers(info: LoggerInfo, sink: string, r: Record) {
    sink in info.sinks && InRange(info.id, info.level, r.loggerId) && info.filter(r)
  }

  ghost predicate RoutingOk(sinks: map<string, SinkInfo>, wired: map<string, LoggerInfo>) {
    forall s, r: Record :: s in sinks ==> (sinks[s].redirect(r) <==> Reaches(wired, s, r))
  }

  // Root was activated before it was configured.  No other logger exists that early.
  ghost predicate EarlyRoot(wired: map<string, LoggerInfo>, infos: map<string, LoggerInfo>) {
    ROOT in wired && ROOT in infos && wired[ROOT].fileId == 0 && infos[ROOT].fileId != 0
  }

  // An active logger is still what it was when it was activated, except an early Root.
  ghost predicate WiredOk(wired: map<string, LoggerInfo>, infos: map<string, LoggerInfo>) {
    && (forall n :: n in infos ==> (infos[n].active <==> n in wired))
    && (forall n :: n in wired ==>
          n in infos && (wired[n] == infos[n].(active := false) ||
                         (n == ROOT && EarlyRoot(wired, infos) && wired[n] == NEW_INFO)))
  }

  ghost predicate LinksOk(infos: map<string, LoggerInfo>, wired: map<string, LoggerInfo>,
                          sinks: map<string, SinkInfo>) {
    && (forall n, s :: n in infos && s in infos[n].sinks ==> s in sinks)
    && (forall n, s :: n in wired && s in wired[n].sinks ==> s in sinks)
  }

  ghost predicate Extends<V(!new)>(m: map<string, V>, m': map<string, V>) {
    forall n :: n in m ==> n in m' && m'[n] == m[n]
  }

  // The entry for a newly declared logger: Root exists already, any other logger is new.
  ghost predicate NewEntry(infos: map<string, LoggerInfo>, ids: map<string, nat>, name: string, d: Declaration,
                           info: LoggerInfo) {
    && d.fileId > 0 && ROOT in infos && (name == ROOT || name in ids)
    && info == EntryOf(d, name, ids, name == ROOT && infos[ROOT].active)
  }

  lemma DeclareInfos(infos: map<string, LoggerInfo>, configured: set<string>, ids: map<string, nat>, name: string,
                     d: Declaration, info: LoggerInfo)
    requires InfosOk(infos, configured, ids) && name !in configured && NewEntry(infos, ids, name, d, info)
    ensures InfosOk(infos[name := info], configured + {name}, ids)
  {
    hide Level;
  }

  lemma DeclareWired(infos: map<string, LoggerInfo>, configured: set<string>, ids: map<string, nat>,
                     wired: map<string, LoggerInfo>, name: string, d: Declaration, info: LoggerInfo)
    requires InfosOk(infos, configured, ids) && name !in configured && NewEntry(infos, ids, name, d, info)
    requires WiredOk(wired, infos)
    ensures WiredOk(wired, infos[name := info])
    ensures EarlyRoot(wired, infos[name := info]) <==> EarlyRoot(wired, infos) || (name == ROOT && infos[ROOT].active)
  {
    hide Level;
    assert name == ROOT && ROOT in wired ==> wired[ROOT] == NEW_INFO;
  }

  lemma DeclareLinks(infos: map<string, LoggerInfo>, ids: map<string, nat>, wired: map<string, LoggerInfo>,
                     sinks: map<string, SinkInfo>, name: string, d: Declaration, info: LoggerInfo)
    requires LinksOk(infos, wired, sinks) && NewEntry(infos, ids, name, d, info)
    ensures LinksOk(infos[name := info], wired, sinks)
  {
    hide Level;
  }

  lemma InfosExtend(infos: map<string, LoggerInfo>, configured: set<string>, ids: map<string, nat>,
                    ids': map<string, nat>)
    requires InfosOk(infos, configured, ids) && Extends(ids, ids')
    ensures InfosOk(infos, configured, ids')
  {
    hide Level;
  }

  // ----- Sinks -----

  // AddFilter of SinkInfo: the new disjunct is put in front of the old filter.
  function AddFilter(sink: SinkInfo, filt1: Filter, filt2: Filter): SinkInfo {
    var oldFilter := sink.redirect;
    sink.(redirect := r => (filt1(r) && filt2(r)) || oldFilter(r))
  }

  function RangeFilter(info: LoggerInfo): Filter {
    (r: Record) => InRange(info.id, info.level, r.loggerId)
  }

  // The sinks after a logger has added its interval and its filter to those in a list.
  function WithFilters(sinks: map<string, SinkInfo>, info: LoggerInfo, links: seq<string>)
    : (after: map<string, SinkInfo>)
    requires forall s :: s in links ==> s in sinks
    ensures after.Keys == sinks.Keys
  {
    if |links| == 0 then sinks
    else
      var last := links[|links| - 1];
      var before := WithFilters(sinks, info, links[..|links| - 1]);
      before[last := AddFilter(before[last], RangeFilter(info), info.filter)]
  }

  // What adding a filter to the sinks in a list means.
  ghost predicate Added(before: map<string, SinkInfo>, after: map<string, SinkInfo>, info: LoggerInfo,
                        done: seq<string>) {
    && after.Keys == before.Keys
    && (forall s :: s in before ==> after[s].initFilter == before[s].initFilter)
    && (forall s, r: Record :: s in before ==> Widened(before[s], after[s], info, s in done, r))
  }

  ghost predicate Widened(before: SinkInfo, after: SinkInfo, info: LoggerInfo, linked: bool, r: Record) {
    after.redirect(r) <==>
    (linked && InRange(info.id, info.level, r.loggerId) && info.filter(r)) || before.redirect(r)
  }

  lemma AddedNone(sinks: map<string, SinkInfo>, info: LoggerInfo)
    ensures Added(sinks, sinks, info, [])
  {}

  lemma AddedMore(before: map<string, SinkInfo>, after: map<string, SinkInfo>, info: LoggerInfo, done: seq<string>,
                  s: string)
    requires Added(before, after, info, done) && s in before
    ensures Added(before, after[s := AddFilter(after[s], RangeFilter(info), info.filter)], info, done + [s])
  {
    hide InRange;
    var after' := after[s := AddFilter(after[s], RangeFilter(info), info.filter)];
    forall t, r: Record | t in before
      ensures Widened(before[t], after'[t], info, t in done + [s], r)
    {
      assert Widened(before[t], after[t], info, t in done, r);
    }
  }

  lemma {:induction false} FiltersAdded(sinks: map<string, SinkInfo>, info: LoggerInfo, links: seq<string>)
    requires forall s :: s in links ==> s in sinks
    ensures Added(sinks, WithFilters(sinks, info, links), info, links)
  {
    hide Added, AddFilter, RangeFilter;
    if |links| == 0 {
      AddedNone(sinks, info);
    } else {
      var (front, last) := (links[..|links| - 1], links[|links| - 1]);
      FiltersAdded(sinks, info, front);
      AddedMore(sinks, WithFilters(sinks, info, front), info, front, last);
      assert front + [last] == links;
    }
  }

  lemma Activated(before: map<string, SinkInfo>, after: map<string, SinkInfo>, wired: map<string, LoggerInfo>,
                  n: string, info: LoggerInfo)
    requires RoutingOk(before, wired) && Added(before, after, info, info.sinks) && n !in wired
    ensures RoutingOk(after, wired[n := info])
  {
    hide InRange;
    var wired' := wired[n := info];
    forall s, r: Record | s in after
      ensures after[s].redirect(r) <==> Reaches(wired', s, r)
    {
      assert Widened(before[s], after[s], info, s in info.sinks, r);
      assert before[s].redirect(r) <==> Reaches(wired, s, r);
      assert after[s].redirect(r) <==> Covers(info, s, r) || before[s].redirect(r);
      if Covers(info, s, r) {
        assert n in wired' && Covers(wired'[n], s, r);
      } else if Reaches(wired, s, r) {
        var m :| m in wired && Covers(wired[m], s, r);
        assert m in wired' && Covers(wired'[m], s, r);
      } else {
        assert forall m :: m in wired' ==> m == n || (m in wired && wired'[m] == wired[m]);
      }
    }
  }

  lemma ActivateWired(wired: map<string, LoggerInfo>, infos: map<string, LoggerInfo>, n: string)
    requires WiredOk(wired, infos) && n in infos && !infos[n].active
    ensures n !in wired
    ensures WiredOk(wired[n := infos[n]], infos[n := infos[n].(active := true)])
    ensures EarlyRoot(wired[n := infos[n]], infos[n := infos[n].(active := true)]) <==> EarlyRoot(wired, infos)
  {}

  lemma ActivateInfos(infos: map<string, LoggerInfo>, configured: set<string>, ids: map<string, nat>, n: string)
    requires InfosOk(infos, configured, ids) && n in infos
    ensures InfosOk(infos[n := infos[n].(active := true)], configured, ids)
  {}

  lemma ActivateLinks(infos: map<string, LoggerInfo>, wired: map<string, LoggerInfo>, sinks: map<string, SinkInfo>,
                      n: string)
    requires LinksOk(infos, wired, sinks) && n in infos
    ensures forall s :: s in infos[n].sinks ==> s in sinks
    ensures LinksOk(infos[n := infos[n].(active := true)], wired[n := infos[n]], sinks)
  {}

  lemma SameSinks(infos: map<string, LoggerInfo>, wired: map<string, LoggerInfo>, before: map<string, SinkInfo>,
                  after: map<string, SinkInfo>, info: LoggerInfo)
    requires LinksOk(infos, wired, before) && Added(before, after, info, info.sinks)
    ensures LinksOk(infos, wired, after)
  {}

  // A new sink is not yet reached by anything.
  lemma NewSinkOk(sinks: map<string, SinkInfo>, wired: map<string, LoggerInfo>, infos: map<string, LoggerInfo>,
                  s: string, init: Filter)
    requires RoutingOk(sinks, wired) && LinksOk(infos, wired, sinks) && s !in sinks
    ensures var sinks' := sinks[s := SinkInfo(init, NOTHING)];
            RoutingOk(sinks', wired) && LinksOk(infos, wired, sinks')
  {
    hide InRange;
    var sinks' := sinks[s := SinkInfo(init, NOTHING)];
    forall k, r: Record | k in sinks'
      ensures sinks'[k].redirect(r) <==> Reaches(wired, k, r)
    {
      if k == s {
        assert forall n :: n in wired ==> !Covers(wired[n], k, r);
      }
    }
  }

  lemma LinkWired(wired: map<string, LoggerInfo>, infos: map<string, LoggerInfo>, sinks: map<string, SinkInfo>,
                  n: string)
    requires WiredOk(wired, infos) && LinksOk(infos, wired, sinks) && n in infos
    requires infos[n].active ==> n == ROOT && EarlyRoot(wired, infos)
    ensures var infos' := infos[n := WithLinks(infos[n], sinks.Keys)];
            && WiredOk(wired, infos') && LinksOk(infos', wired, sinks)
            && (EarlyRoot(wired, infos') <==> EarlyRoot(wired, infos))
  {
    hide Linked;
  }

  lemma LinkInfos(infos: map<string, LoggerInfo>, configured: set<string>, ids: map<string, nat>, keys: set<string>,
                  n: string)
    requires InfosOk(infos, configured, ids) && n in configured && n in infos
    ensures InfosOk(infos[n := WithLinks(infos[n], keys)], configured, ids)
  {
    hide Linked, Level;
  }

  // ----- What the intervals and the filters mean together -----

  // Root has id 0 at level 0: its interval holds no other logger, even one named below Root.
  lemma RootInterval(t: IdTable, infos: map<string, LoggerInfo>, configured: set<string>, y: string)
    requires TableOk(t) && InfosOk(infos, configured, t.ids) && WithinBudget(t.counts)
    requires y in infos && y != ROOT
    ensures !InRange(0, 0, infos[y].id) && infos[y].id != 0
    ensures (InRange(0, 0, infos[y].id) <==> AncestorOrSelf(ROOT, y)) <==> !(ROOT + "." <= y)
  {
    hide TableOk, NextId, Unit, Level;
    TopDigit(t, y);
  }

  // The interval test on two configured loggers is dotted ancestry, provided Root is not used
  // as the name of a section above other loggers.
  lemma LoggerInterval(t: IdTable, infos: map<string, LoggerInfo>, configured: set<string>, x: string, y: string)
    requires TableOk(t) && InfosOk(infos, configured, t.ids) && WithinBudget(t.counts)
    requires x in infos && y in infos && ROOT !in t.ids
    ensures InRange(infos[x].id, infos[x].level, infos[y].id) <==> AncestorOrSelf(x, y)
    ensures infos[x].id == infos[y].id ==> x == y
  {
    LevelZero(ROOT);
    if x != ROOT && y != ROOT {
      IntervalIsAncestry(t, x, y);
    } else if y != ROOT {
      RootInterval(t, infos, configured, y);
      AncestorAtLevel(ROOT, y);
      NestedUpTo(t, y, 0);
    } else if x != ROOT {
      RootInterval(t, infos, configured, x);
      ContinuationHasDot(x, ROOT);
    } else {
      UnitBounds(0);
    }
  }

  // Some activated logger that is linked to the sink, and is y or an ancestor of y, lets the
  // record through.
  ghost predicate Accepted(wired: map<string, LoggerInfo>, sink: string, y: string, r: Record) {
    exists n :: n in wired && sink in wired[n].sinks && AncestorOrSelf(n, y) && wired[n].filter(r)
  }

  // A sink takes a record of logger y exactly when its own filter does and some activated
  // logger that is linked to it, and is an ancestor of y or y itself, has an accepting filter.
  lemma Delivery(t: IdTable, infos: map<string, LoggerInfo>, configured: set<string>,
                 sinks: map<string, SinkInfo>, wired: map<string, LoggerInfo>, s: string, y: string, r: Record)
    requires TableOk(t) && InfosOk(infos, configured, t.ids) && WithinBudget(t.counts) && ROOT !in t.ids
    requires WiredOk(wired, infos) && RoutingOk(sinks, wired)
    requires s in sinks && y in infos && r.loggerId == infos[y].id
    ensures sinks[s].Passes(r) <==>
            sinks[s].initFilter(r) && Accepted(wired, s, y, r)
  {
    hide TableOk, InRange, AncestorOrSelf, WithinBudget;
    forall n | n in wired
      ensures Covers(wired[n], s, r) <==> s in wired[n].sinks && AncestorOrSelf(n, y) && wired[n].filter(r)
    {
      LoggerInterval(t, infos, configured, n, y);
      assert wired[n].id == infos[n].id && wired[n].level == infos[n].level;
    }
    assert sinks[s].redirect(r) <==> Reaches(wired, s, r);
  }

  // ----- Logger entries that change after activation -----

  // The same for the links and filters that the loggers have now.
  ghost predicate AcceptedNow(infos: map<string, LoggerInfo>, sink: string, y: string, r: Record) {
    exists n :: n in infos && infos[n].active && sink in infos[n].sinks && AncestorOrSelf(n, y) && infos[n].filter(r)
  }

  // Every sink takes exactly the records that its own filter takes and that the activated
  // loggers, as they are now, send to it.
  ghost predicate FollowsLinks(infos: map<string, LoggerInfo>, sinks: map<string, SinkInfo>) {
    forall s, y, r: Record :: s in sinks && y in infos && r.loggerId == infos[y].id ==>
      (sinks[s].Passes(r) <==> sinks[s].initFilter(r) && AcceptedNow(infos, s, y, r))
  }

  // Root has a sink that would take some record of Root itself.
  ghost predicate RootWouldSend(infos: map<string, LoggerInfo>, sinks: map<string, SinkInfo>)
    requires ROOT in infos
  {
    exists s, r: Record :: RootSends(infos, sinks, s, r)
  }

  ghost predicate RootSends(infos: map<string, LoggerInfo>, sinks: map<string, SinkInfo>, s: string, r: Record)
    requires ROOT in infos
  {
    s in sinks && s in infos[ROOT].sinks && r.loggerId == 0 && sinks[s].initFilter(r) && infos[ROOT].filter(r)
  }

  // Records of Root do not reach the sinks of a Root that was activated before it was
  // configured, although it is active, linked to the sink, and its filter accepts them.
  lemma EarlyRootSendsNothing(t: IdTable, infos: map<string, LoggerInfo>, configured: set<string>,
                              sinks: map<string, SinkInfo>, wired: map<string, LoggerInfo>, s: string, r: Record)
    requires TableOk(t) && InfosOk(infos, configured, t.ids) && WithinBudget(t.counts) && ROOT !in t.ids
    requires WiredOk(wired, infos) && RoutingOk(sinks, wired) && EarlyRoot(wired, infos)
    requires RootSends(infos, sinks, s, r)
    ensures wired[ROOT] == NEW_INFO && infos[ROOT].active
    ensures !sinks[s].redirect(r) && AcceptedNow(infos, s, ROOT, r)
  {
    Delivery(t, infos, configured, sinks, wired, s, ROOT, r);
    hide TableOk, InRange, WithinBudget, RoutingOk, Reaches;
    forall n | n in wired && AncestorOrSelf(n, ROOT)
      ensures s !in wired[n].sinks
    {
      ContinuationHasDot(n, ROOT);
    }
    assert AncestorOrSelf(ROOT, ROOT);
  }

  // Only records of Root are accepted by Root.
  lemma RootCoversItself(t: IdTable, infos: map<string, LoggerInfo>, configured: set<string>, y: string)
    requires TableOk(t) && InfosOk(infos, configured, t.ids) && WithinBudget(t.counts) && ROOT !in t.ids
    requires y in infos && AncestorOrSelf(ROOT, y)
    ensures y == ROOT && infos[y].id == 0
  {
    hide TableOk, WithinBudget;
    if y != ROOT {
      RootInterval(t, infos, configured, y);
      LoggerInterval(t, infos, configured, ROOT, y);
    }
  }

  lemma AcceptedAsNow(t: IdTable, infos: map<string, LoggerInfo>, configured: set<string>,
                      sinks: map<string, SinkInfo>, wired: map<string, LoggerInfo>, s: string, y: string, r: Record)
    requires TableOk(t) && InfosOk(infos, configured, t.ids) && WithinBudget(t.counts) && ROOT !in t.ids
    requires WiredOk(wired, infos) && s in sinks && y in infos && r.loggerId == infos[y].id
    requires EarlyRoot(wired, infos) ==> !RootSends(infos, sinks, s, r)
    ensures sinks[s].initFilter(r) ==> (Accepted(wired, s, y, r) <==> AcceptedNow(infos, s, y, r))
  {
    hide TableOk, WithinBudget, AncestorOrSelf, InfosOk;
    if AncestorOrSelf(ROOT, y) {
      RootCoversItself(t, infos, configured, y);
    }
    if Accepted(wired, s, y, r) {
      var n :| n in wired && s in wired[n].sinks && AncestorOrSelf(n, y) && wired[n].filter(r);
      assert n in infos && infos[n].active;
    }
    if sinks[s].initFilter(r) && AcceptedNow(infos, s, y, r) {
      var n :| n in infos && infos[n].active && s in infos[n].sinks && AncestorOrSelf(n, y) && infos[n].filter(r);
      assert n in wired && wired[n].sinks == infos[n].sinks && wired[n].filter == infos[n].filter;
    }
  }

  // Delivery follows the loggers as they are now if and only if Root was not activated before
  // it was configured, or has no sink that would take a record of Root.
  lemma FollowsLinksExactly(t: IdTable, infos: map<string, LoggerInfo>, configured: set<string>,
                            sinks: map<string, SinkInfo>, wired: map<string, LoggerInfo>)
    requires TableOk(t) && InfosOk(infos, configured, t.ids) && WithinBudget(t.counts) && ROOT !in t.ids
    requires WiredOk(wired, infos) && RoutingOk(sinks, wired)
    ensures FollowsLinks(infos, sinks) <==> !(EarlyRoot(wired, infos) && RootWouldSend(infos, sinks))
  {
    hide TableOk, WithinBudget, RoutingOk, WiredOk, AcceptedNow, Accepted, RootSends, EarlyRoot;
    if EarlyRoot(wired, infos) && RootWouldSend(infos, sinks) {
      var s, r: Record :| RootSends(infos, sinks, s, r);
      RootSendsTo(infos, sinks, s, r);
      EarlyRootSendsNothing(t, infos, configured, sinks, wired, s, r);
    } else {
      forall s, y, r: Record | s in sinks && y in infos && r.loggerId == infos[y].id
        ensures sinks[s].Passes(r) <==> sinks[s].initFilter(r) && AcceptedNow(infos, s, y, r)
      {
        Delivery(t, infos, configured, sinks, wired, s, y, r);
        AcceptedAsNow(t, infos, configured, sinks, wired, s, y, r);
      }
    }
  }

  lemma RootSendsTo(infos: map<string, LoggerInfo>, sinks: map<string, SinkInfo>, s: string, r: Record)
    requires ROOT in infos && RootSends(infos, sinks, s, r)
    ensures s in sinks && r.loggerId == 0 && sinks[s].initFilter(r)
  {}

  // ----- Sequences of activations -----

  datatype Routing = Routing(infos: map<string, LoggerInfo>, sinks: map<string, SinkInfo>,
                             wired: map<string, LoggerInfo>)

  ghost predicate LinksKnown(rt: Routing) {
    forall n, s :: n in rt.infos && s in rt.infos[n].sinks ==> s in rt.sinks
  }

  // One GetLogger call that resolves to a logger: the first call for it activates it.
  function Got(rt: Routing, key: string): (rt': Routing)
    requires key in rt.infos && LinksKnown(rt)
    ensures rt'.infos.Keys == rt.infos.Keys && rt'.sinks.Keys == rt.sinks.Keys && LinksKnown(rt')
  {
    var info := rt.infos[key];
    if info.active then rt
    else
      Routing(rt.infos[key := info.(active := true)], WithFilters(rt.sinks, info, info.sinks), rt.wired[key := info])
  }

  // A sequence of GetLogger calls, by the loggers that they resolve to.
  function GotAll(rt: Routing, keys: seq<string>): (rt': Routing)
    requires LinksKnown(rt) && forall k :: k in keys ==> k in rt.infos
    ensures rt'.infos.Keys == rt.infos.Keys && rt'.sinks.Keys == rt.sinks.Keys && LinksKnown(rt')
  {
    if |keys| == 0 then rt else Got(GotAll(rt, keys[..|keys| - 1]), keys[|keys| - 1])
  }

  // Some logger of the set that was not active before sends the record to the sink.
  ghost predicate Sends(infos: map<string, LoggerInfo>, keys: set<string>, s: string, r: Record) {
    exists k :: k in keys && k in infos && !infos[k].active && Covers(infos[k], s, r)
  }

  ghost predicate SameEntry(before: LoggerInfo, after: LoggerInfo, asked: bool) {
    after == before.(active := before.active || asked)
  }

  // The state after the calls in terms of the set of loggers asked for: those have been
  // activated, once each, and the sinks redirect what those of them send that were inactive.
  ghost predicate AfterCalls(rt: Routing, rt': Routing, keys: set<string>) {
    && rt'.infos.Keys == rt.infos.Keys && rt'.sinks.Keys == rt.sinks.Keys
    && (forall n :: n in rt.infos ==> SameEntry(rt.infos[n], rt'.infos[n], n in keys))
    && (forall s :: s in rt.sinks ==> rt'.sinks[s].initFilter == rt.sinks[s].initFilter)
    && (forall s, r: Record :: s in rt.sinks ==>
          (rt'.sinks[s].redirect(r) <==> rt.sinks[s].redirect(r) || Sends(rt.infos, keys, s, r)))
  }

  lemma OneMoreCall(rt: Routing, rt': Routing, keys: set<string>, key: string)
    requires AfterCalls(rt, rt', keys) && key in rt.infos && LinksKnown(rt')
    ensures AfterCalls(rt, Got(rt', key), keys + {key})
  {
    hide InRange;
    var (info, rt2) := (rt'.infos[key], Got(rt', key));
    if info.active {
      forall s, r: Record | s in rt.sinks
        ensures Sends(rt.infos, keys + {key}, s, r) <==> Sends(rt.infos, keys, s, r)
      {}
    } else {
      FiltersAdded(rt'.sinks, info, info.sinks);
      forall s, r: Record | s in rt.sinks
        ensures rt2.sinks[s].redirect(r) <==> rt.sinks[s].redirect(r) || Sends(rt.infos, keys + {key}, s, r)
      {
        assert Widened(rt'.sinks[s], rt2.sinks[s], info, s in info.sinks, r);
        SendsMore(rt.infos, keys, key, s, r);
      }
    }
  }

  lemma SendsMore(infos: map<string, LoggerInfo>, keys: set<string>, key: string, s: string, r: Record)
    requires key in infos && !infos[key].active
    ensures Sends(infos, keys + {key}, s, r) <==> Sends(infos, keys, s, r) || Covers(infos[key], s, r)
  {
    hide Covers;
    if Sends(infos, keys, s, r) {
      var k :| k in keys && k in infos && !infos[k].active && Covers(infos[k], s, r);
      assert k in keys + {key};
    }
    assert key in keys + {key};
  }

  lemma {:induction false} CallsBySet(rt: Routing, keys: seq<string>)
    requires LinksKnown(rt) && forall k :: k in keys ==> k in rt.infos
    ensures AfterCalls(rt, GotAll(rt, keys), SetOf(keys))
  {
    hide AfterCalls, Got;
    if |keys| == 0 {
      NoCalls(rt);
    } else {
      var (front, last) := (keys[..|keys| - 1], keys[|keys| - 1]);
      CallsBySet(rt, front);
      OneMoreCall(rt, GotAll(rt, front), SetOf(front), last);
      assert keys == front + [last];
      assert SetOf(keys) == SetOf(front) + {last};
    }
  }

  lemma NoCalls(rt: Routing)
    ensures AfterCalls(rt, rt, SetOf<string>([]))
  {}

  // The order and the repetition of the calls are irrelevant: two sequences of GetLogger
  // calls for the same set of loggers activate the same loggers, and the sinks then redirect
  // and pass the same records.
  lemma OrderIrrelevant(rt: Routing, keys: seq<string>, keys': seq<string>)
    requires LinksKnown(rt) && (forall k :: k in keys ==> k in rt.infos) && (forall k :: k in keys' ==> k in rt.infos)
    requires SetOf(keys) == SetOf(keys')
    ensures GotAll(rt, keys).infos == GotAll(rt, keys').infos
    ensures forall s, r: Record :: s in rt.sinks ==>
              && (GotAll(rt, keys).sinks[s].redirect(r) <==> GotAll(rt, keys').sinks[s].redirect(r))
              && (GotAll(rt, keys).sinks[s].Passes(r) <==> GotAll(rt, keys').sinks[s].Passes(r))
  {
    CallsBySet(rt, keys);
    CallsBySet(rt, keys');
    hide GotAll, SetOf, LinksKnown;
  }
}
