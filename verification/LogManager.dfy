/**
 The log manager (log/LogManager.cpp): loading configuration files, assigning ids, resolving
 names and activating loggers.

 The manager's objects are the fields of one class; a LoggerInfo or SinkInfo object is the
 key of its entry.
 */
module LogManager {
  import opened Collections
  import opened Words
  import opened DecimalText
  import opened LoggerNames
  import opened LoggerIds
  import opened LogConfig
  import opened LogRouting

  // Where the parent of a name stands when the section of that name is loaded.
  ghost predicate Placed(ids: map<string, nat>, name: string, parentId: nat) {
    if DotFree(name) then parentId == 0
    else Parent(name) in ids && ids[Parent(name)] == parentId
  }

  lemma PlacedChild(ids: map<string, nat>, name: string, c: string)
    requires name != "" ==> name in ids
    requires DotFree(c)
    ensures Placed(ids, Prefix(name) + c, if name == "" then 0 else ids[name])
    ensures Level(Prefix(name) + c) == if name == "" then 0 else Level(name) + 1
  {
    if name != "" {
      ChildName(name, c);
    } else {
      LevelZero(c);
      assert Prefix(name) + c == c;
    }
  }

  lemma ModSucc(k: nat)
    ensures (k % UINT32 + 1) % UINT32 == (k + 1) % UINT32
  {}

  // ----- Resolving a name to a logger -----

  // The next prefix length to try; find_last_of with position lastPos - 1, where 0 - 1 wraps to npos.
  function NextPos(name: string, lastPos: nat): int
    requires lastPos <= |name|
  {
    if lastPos == 0 then LastDot(name) else LastDot(name[..lastPos])
  }

  // The prefix length of probe k, or -1 once the name is exhausted.
  function SearchPos(name: string, k: nat): (p: int)
    ensures -1 <= p <= |name|
    ensures p >= 0 ==> p == |name| || name[p] == '.'
  {
    if k == 0 then |name|
    else
      var p := SearchPos(name, k - 1);
      if p == -1 then -1 else NextPos(name, p)
  }

  // Probe k finds a configured logger, or the name is exhausted.
  ghost predicate StopsAt(known: set<string>, name: string, k: nat) {
    var p := SearchPos(name, k);
    p == -1 || name[..p] in known
  }

  predicate SearchEnds(known: set<string>, name: string) {
    name == "" || name[0] != '.' || exists n :: n in known && AncestorOrSelf(n, name)
  }

  // r is the longest configured dot-boundary prefix of the name, or Root when there is none.
  ghost predicate Resolves(known: set<string>, name: string, r: string) {
    if exists n :: n in known && AncestorOrSelf(n, name) then
      r in known && AncestorOrSelf(r, name) && forall n :: n in known && AncestorOrSelf(n, name) ==> |n| <= |r|
    else
      r == ROOT
  }

  // Positions go down to any boundary that is not passed over, one dot at a time.
  lemma {:induction false} Descends(name: string, q: int, k: nat)
    requires if q == -1 then name == "" || name[0] != '.' else 1 <= q <= |name| && (q == |name| || name[q] == '.')
    requires SearchPos(name, k) >= q
    ensures exists k' :: SearchPos(name, k') == q
    decreases SearchPos(name, k) - q
  {
    var p := SearchPos(name, k);
    if p != q {
      var next := SearchPos(name, k + 1);
      assert next == NextPos(name, p);
      assert p == 0 ==> name == "";
      assert q >= 0 ==> name[..p][q] == '.';
      Descends(name, q, k + 1);
    }
  }

  // The search of GetLoggerInfo ends unless the name starts with a dot and no logger covers it.
  lemma SearchEndsExactly(known: set<string>, name: string)
    requires "" !in known
    ensures (exists k :: StopsAt(known, name, k)) <==> SearchEnds(known, name)
  {
    if name == "" || name[0] != '.' {
      Descends(name, -1, 0);
      var k :| SearchPos(name, k) == -1;
      assert StopsAt(known, name, k);
    } else if n :| n in known && AncestorOrSelf(n, name) {
      Descends(name, |n|, 0);
      var k :| SearchPos(name, k) == |n|;
      assert name[..|n|] == n;
      assert StopsAt(known, name, k);
    } else {
      forall k: nat
        ensures !StopsAt(known, name, k)
      {
        NeverExhausted(name, k);
        var p := SearchPos(name, k);
        assert AncestorOrSelf(name[..p], name) by {
          assert p < |name| ==> name[..p] + "." == name[..p + 1];
          assert name[..|name|] == name;
        }
      }
    }
  }

  lemma {:induction false} NeverExhausted(name: string, k: nat)
    requires name != "" && name[0] == '.'
    ensures SearchPos(name, k) >= 0
  {
    if k > 0 {
      NeverExhausted(name, k - 1);
      var p := SearchPos(name, k - 1);
      assert p > 0 ==> name[..p][0] == '.';
    }
  }

  // Each name resolves to the key in the same place.
  ghost predicate ResolvesAll(known: set<string>, names: seq<string>, keys: seq<string>) {
    |keys| == |names| && forall i :: 0 <= i < |names| ==> Resolves(known, names[i], keys[i])
  }

  lemma ResolvedExists(known: set<string>, name: string, r: string)
    requires Resolves(known, name, r)
    ensures r in known || r == ROOT
  {}

  // All entries that some declarations describe are there.
  ghost predicate AllEntered(infos: map<string, LoggerInfo>, ids: map<string, nat>,
                             declared: map<string, Declaration>) {
    forall n :: n in declared ==> Entered(infos, ids, n, declared[n])
  }

  // The entries of some loggers are as before.
  ghost predicate Kept(before: map<string, LoggerInfo>, after: map<string, LoggerInfo>, names: set<string>) {
    forall n :: n in names && n in before ==> n in after && after[n] == before[n]
  }

  lemma EnteredMore(before: map<string, LoggerInfo>, after: map<string, LoggerInfo>, ids: map<string, nat>,
                    ids': map<string, nat>, kept: set<string>, d: map<string, Declaration>,
                    d': map<string, Declaration>)
    requires AllEntered(before, ids, d) && Kept(before, after, kept) && d.Keys <= kept && Extends(ids, ids')
    requires AllEntered(after, ids', d')
    ensures AllEntered(after, ids', d + d')
  {
    hide Level, Entry;
  }

  lemma LoadedNothing(infos: map<string, LoggerInfo>, c: set<string>, ids: map<string, nat>, loggers: seq<string>)
    ensures Kept(infos, infos, c) && Grew(c, c, loggers, loggers)
    ensures AddedTo(c, c, map[]) && AllEntered(infos, ids, map[])
  {}

  lemma KeptLonger(first: map<string, LoggerInfo>, before: map<string, LoggerInfo>, after: map<string, LoggerInfo>,
                   names: set<string>, names': set<string>)
    requires Kept(first, before, names) && Kept(before, after, names') && names <= names'
    ensures Kept(first, after, names)
  {}

  lemma EnterExtends(sinks: map<string, SinkInfo>, spec: SinkSpec, fileId: nat)
    ensures Extends(sinks, EnterSink(sinks, spec, fileId))
  {}

  // The final entry of a declared logger: linked to the sinks of its file that it names.
  ghost predicate LinkedEntry(infos: map<string, LoggerInfo>, ids: map<string, nat>, keys: set<string>, n: string,
                              d: Declaration) {
    && (n == ROOT || n in ids)
    && n in infos && infos[n] == WithLinks(EntryOf(d, n, ids, infos[n].active), keys)
  }

  ghost predicate AllLinked(infos: map<string, LoggerInfo>, ids: map<string, nat>, keys: set<string>,
                            declared: map<string, Declaration>) {
    forall n :: n in declared ==> LinkedEntry(infos, ids, keys, n, declared[n])
  }

  lemma EnteredIn(infos: map<string, LoggerInfo>, ids: map<string, nat>, n: string, d: Declaration)
    requires Entered(infos, ids, n, d)
    ensures n in infos
  {}

  // Loading has added the declared loggers, which are all new, and collected them.
  ghost predicate Grew(c0: set<string>, c: set<string>, l0: seq<string>, l: seq<string>) {
    SetOf(l) == SetOf(l0) + (c - c0) && c0 <= c
  }

  ghost predicate AddedTo(c0: set<string>, c: set<string>, declared: map<string, Declaration>) {
    c == c0 + declared.Keys && declared.Keys !! c0
  }

  lemma GrewBy(c0: set<string>, c: set<string>, l0: seq<string>, l: seq<string>)
    requires Grew(c0, c, l0, l)
    ensures c0 <= c
  {}

  lemma GrewMore(c0: set<string>, c1: set<string>, c2: set<string>, l0: seq<string>, l1: seq<string>, l2: seq<string>)
    requires Grew(c0, c1, l0, l1) && Grew(c1, c2, l1, l2)
    ensures Grew(c0, c2, l0, l2)
  {
    hide SetOf;
  }

  lemma AddedToMore(c0: set<string>, c1: set<string>, c2: set<string>, d: map<string, Declaration>,
                    d': map<string, Declaration>)
    requires AddedTo(c0, c1, d) && AddedTo(c1, c2, d')
    ensures AddedTo(c0, c2, d + d') && d.Keys <= c1
  {}

  lemma AddedKeys(c0: set<string>, c: set<string>, declared: map<string, Declaration>)
    requires AddedTo(c0, c, declared)
    ensures c == c0 + declared.Keys
  {}

  lemma NothingFresh(c: set<string>)
    ensures Fresh([], c) && forall prefix :: NamesIn([], prefix) == []
  {}

  lemma NotFresh(children: seq<Child>, i: nat, prefix: string, c: set<string>)
    requires i <= |children| && !Fresh(NamesIn(children[..i], prefix), c)
    ensures !Fresh(NamesIn(children, prefix), c)
  {
    hide Fresh;
    if Fresh(NamesIn(children, prefix), c) {
      FreshSoFar(children, i, prefix, c);
    }
  }

  lemma NoFiles(sinks: map<string, SinkInfo>, c: set<string>, fileId: nat)
    ensures FilesLoad([], sinks, c, fileId)
  {}

  lemma FilesDoNotLoad(configs: seq<Config>, sinks: map<string, SinkInfo>, c: set<string>, fileId: nat, i: nat)
    requires i <= |configs| && !FilesLoad(configs[..i], sinks, c, fileId)
    ensures !FilesLoad(configs, sinks, c, fileId)
  {
    hide FilesLoad;
    if FilesLoad(configs, sinks, c, fileId) {
      FilesLoadSoFar(configs, sinks, c, fileId, i);
    }
  }

  lemma EntryLinked(before: map<string, LoggerInfo>, after: map<string, LoggerInfo>, ids: map<string, nat>,
                    keys: set<string>, n: string, d: Declaration)
    requires Entered(before, ids, n, d) && n in after && after[n] == WithLinks(before[n], keys)
    ensures LinkedEntry(after, ids, keys, n, d)
  {
    hide Linked;
  }

  class Manager {
    const ids: array<nat>
    const idMultiple: array<nat>
    var idMap: map<string, nat>
    var configured: set<string>
    var infos: map<string, LoggerInfo>
    var sinks: map<string, SinkInfo>
    var fileId: nat

    ghost var order: map<string, nat>
    ghost var counts: seq<nat>
    ghost var wired: map<string, LoggerInfo>

    ghost function Table(): IdTable
      reads this`idMap, this`order, this`counts
    {
      IdTable(idMap, order, counts)
    }

    ghost predicate IdsOk()
      reads this`idMap, this`order, this`counts, ids, idMultiple
    {
      && ids.Length == 8 && idMultiple.Length == 8 && ids != idMultiple && |counts| == 8
      && (forall l :: 0 <= l < 8 ==> idMultiple[l] == Unit(l))
      && (forall l :: 0 <= l < 8 ==> ids[l] == (counts[l] + 1) % UINT32)
      && TableOk(Table()) && "" !in idMap
    }

    ghost predicate LoggersOk()
      reads this`infos, this`configured, this`idMap
    {
      InfosOk(infos, configured, idMap)
    }

    ghost function Routes(): Routing
      reads this`infos, this`sinks, this`wired
    {
      Routing(infos, sinks, wired)
    }

    // Root was activated before it was configured.
    ghost predicate Early()
      reads this`infos, this`wired
    {
      EarlyRoot(wired, infos)
    }

    ghost predicate SinksOk()
      reads this`infos, this`sinks, this`wired
    {
      WiredOk(wired, infos) && LinksOk(infos, wired, sinks) && RoutingOk(sinks, wired)
    }

    constructor ()
      ensures IdsOk() && LoggersOk() && SinksOk() && fresh(ids) && fresh(idMultiple)
      ensures idMap == map[] && configured == {} && sinks == map[] && fileId == 0 && wired == map[]
      ensures counts == seq(8, _ => 0) && infos == map[ROOT := NEW_INFO] && Valid()
    {
      hide Unit, Level, InRange;
      ids := new nat[8];
      idMultiple := new nat[8];
      idMap, configured, infos, sinks, fileId := map[], {}, map[ROOT := NEW_INFO], map[], 0;
      order, counts, wired := map[], seq(8, _ => 0), map[];
      new;
      InitTables();
    }

    // The multiplier table: the constructor's loop multiplies by 256 in 64 bits.
    method InitTables()
      requires ids.Length == 8 && idMultiple.Length == 8 && ids != idMultiple
      modifies ids, idMultiple
      ensures forall l :: 0 <= l < 8 ==> ids[l] == 1 && idMultiple[l] == Unit(l)
    {
      var multiple := 1;
      for i := 0 to 8
        invariant multiple == if i == 8 then 0 else Unit(7 - i)
        invariant forall l :: 0 <= l < i ==> ids[l] == 1
        invariant forall l :: 8 - i <= l < 8 ==> idMultiple[l] == Unit(l)
      {
        ids[i] := 1;
        idMultiple[8 - i - 1] := multiple;
        UnitBounds(7 - i);
        multiple := multiple * 256 % UINT64;
      }
    }

    method GetId(name: string, level: nat, parentId: nat) returns (id: nat)
      requires IdsOk() && name != "" && level < 8 && Level(name) == level && Placed(idMap, name, parentId)
      modifies this`idMap, this`order, this`counts, ids
      ensures IdsOk()
      ensures name in idMap && id == idMap[name]
      ensures Table() == if name in old(idMap) then old(Table()) else AddName(old(Table()), name)
    {
      hide Level, Parent, TableOk, Unit;
      if name in idMap {
        id := idMap[name];
      } else {
        AddNameOk(Table(), name);
        ghost var k := counts[level] + 1;
        ModSucc(k);
        id := ids[level];
        id := (id * idMultiple[level] + parentId) % UINT64;
        assert id == NewId(k, level, ParentId(idMap, name));
        hide NewId;
        ids[level] := (ids[level] + 1) % UINT32;
        idMap, order, counts := idMap[name := id], order[name := k], counts[level := k];
      }
    }

    ghost predicate Valid()
      reads this`idMap, this`order, this`counts, this`infos, this`configured, this`sinks, this`wired
      reads ids, idMultiple
    {
      IdsOk() && LoggersOk() && SinksOk()
    }

    // Loggers collected by the current Initialize call, to be linked at its end.
    ghost predicate Collected(loggers: seq<string>)
      reads this`infos, this`configured, this`wired
    {
      && NoDuplicates(loggers)
      && forall n :: n in loggers ==>
           n in configured && n in infos && infos[n].sinks == [] && (infos[n].active ==> n == ROOT && Early())
    }

    // The entry for a section with a Sinks parameter, unless its logger exists already.
    method NewInfo(sec: Section, level: nat, name: string, parentId: nat) returns (ok: bool, info: LoggerInfo)
      requires Valid() && fileId > 0 && sec.sinkNames.Some?
      requires name != "" && level < 8 && Level(name) == level && Placed(idMap, name, parentId)
      modifies this`idMap, this`order, this`counts, ids
      ensures Valid() && Extends(old(idMap), idMap)
      ensures ok <==> name !in configured
      ensures ok ==> NewEntry(infos, idMap, name, Declaration(sec, fileId), info)
      ensures ok ==> idMap.Keys == old(idMap.Keys) + ({name} - {ROOT})
      ensures !ok ==> idMap == old(idMap)
    {
      hide ROOT, IdsOk, SinksOk, Level, Parent, Placed;
      info := infos[ROOT];
      ok := if name == ROOT then info.fileId == 0 else name !in configured;
      if ok {
        if name != ROOT {
          ghost var before := idMap;
          var id := GetId(name, level, parentId);
          InfosExtend(infos, configured, before, idMap);
          info := NEW_INFO.(id := id, level := level);
        }
        info := info.(fileId := fileId, sinkNames := sec.sinkNames.value);
        if sec.filter.Some? {
          info := info.(filter := sec.filter.value);
        }
      }
    }

    method InsertInfo(name: string, info: LoggerInfo, ghost d: Declaration)
      requires Valid() && name !in configured && NewEntry(infos, idMap, name, d, info)
      modifies this`configured, this`infos
      ensures Valid()
      ensures configured == old(configured) + {name} && infos == old(infos)[name := info]
      ensures Early() <==> old(Early()) || (name == ROOT && old(infos)[ROOT].active)
    {
      hide ROOT, NewEntry, IdsOk, InfosOk, WiredOk, LinksOk, RoutingOk, EarlyRoot;
      DeclareInfos(infos, configured, idMap, name, d, info);
      DeclareWired(infos, configured, idMap, wired, name, d, info);
      DeclareLinks(infos, idMap, wired, sinks, name, d, info);
      infos, configured := infos[name := info], configured + {name};
    }

    // A section with a Sinks parameter declares a logger, unless that logger exists already.
    method DeclareLogger(sec: Section, level: nat, name: string, parentId: nat, loggers: seq<string>)
      returns (ok: bool, loggers': seq<string>)
      requires Valid() && Collected(loggers) && fileId > 0 && sec.sinkNames.Some?
      requires name != "" && level < 8 && Level(name) == level && Placed(idMap, name, parentId)
      modifies this`idMap, this`order, this`counts, this`configured, this`infos, ids
      ensures Valid() && Collected(loggers') && Extends(old(idMap), idMap)
      ensures ok <==> name !in old(configured)
      ensures ok ==> configured == old(configured) + {name} && loggers' == loggers + [name]
      ensures ok ==> idMap.Keys == old(idMap.Keys) + ({name} - {ROOT})
      ensures ok ==> Entered(infos, idMap, name, Declaration(sec, fileId)) && infos == old(infos)[name := infos[name]]
      ensures !ok ==> configured == old(configured) && infos == old(infos) && idMap == old(idMap) && loggers' == loggers
    {
      hide Valid, Level, Parent, Placed, Extends, EarlyRoot;
      var info;
      ok, info := NewInfo(sec, level, name, parentId);
      loggers' := loggers;
      if ok {
        InsertInfo(name, info, Declaration(sec, fileId));
        loggers' := loggers + [name];
        assert Collected(loggers') by {
          assert forall n :: n in loggers' ==> n == name || n in loggers;
        }
      }
    }

    // The id of a section that contains loggers.
    method SectionId(name: string, level: nat, parentId: nat) returns (id: nat)
      requires Valid() && name != "" && level < 8 && Level(name) == level && Placed(idMap, name, parentId)
      modifies this`idMap, this`order, this`counts, ids
      ensures Valid() && Extends(old(idMap), idMap)
      ensures name in idMap && id == idMap[name] && idMap.Keys == old(idMap.Keys) + {name}
    {
      hide IdsOk, SinksOk, Level, Parent, InfosOk;
      ghost var before := idMap;
      id := GetId(name, level, parentId);
      InfosExtend(infos, configured, before, idMap);
    }

    // Loads a section below a name; the walk stops at the first logger declared twice.
    method LoadLogger(sec: Section, level: int, name: string, parentId: nat, loggers: seq<string>)
      returns (ok: bool, loggers': seq<string>)
      requires Valid() && Collected(loggers) && fileId > 0
      requires -1 <= level < 8 && Fits(sec, level)
      requires if name == "" then level == -1 && parentId == 0 && sec.sinkNames.None?
               else level == Level(name) && Placed(idMap, name, parentId)
      modifies this`idMap, this`order, this`counts, this`configured, this`infos, ids
      ensures Valid() && Collected(loggers') && Extends(old(idMap), idMap)
      ensures Kept(old(infos), infos, old(configured))
      ensures ok ==> AddedTo(old(configured), configured, Declared(sec, name, fileId))
      ensures ok ==> AllEntered(infos, idMap, Declared(sec, name, fileId))
      ensures ok ==> idMap.Keys == old(idMap.Keys) + Identified(sec, name)
      ensures ok <==> Fresh(Names(sec, name), old(configured))
      ensures Grew(old(configured), configured, loggers, loggers')
      decreases sec, 1
    {
      hide Valid, Level, Parent, Placed, Collected, IdentifiedIn, Fresh;
      FreshOne(name, configured);
      NothingFresh(configured);
      ok, loggers' := true, loggers;
      if sec.sinkNames.Some? {
        ok, loggers' := DeclareLogger(sec, level, name, parentId, loggers);
      } else if !sec.Empty() {
        var id := 0;
        if name != "" {
          id := SectionId(name, level, parentId);
        }
        ok, loggers' := LoadChildren(sec.children, level, name, id, loggers);
      }
    }

    method LoadChildren(children: seq<Child>, level: int, name: string, id: nat, loggers: seq<string>)
      returns (ok: bool, loggers': seq<string>)
      requires Valid() && Collected(loggers) && fileId > 0 && -1 <= level < 8
      requires forall c :: c in children && !c.section.Empty() ==>
                 c.name != "" && DotFree(c.name) && level + 1 < 8 && Fits(c.section, level + 1)
      requires if name == "" then level == -1 && id == 0
               else level == Level(name) && name in idMap && idMap[name] == id
      modifies this`idMap, this`order, this`counts, this`configured, this`infos, ids
      ensures Valid() && Collected(loggers') && Extends(old(idMap), idMap)
      ensures Kept(old(infos), infos, old(configured))
      ensures ok ==> AddedTo(old(configured), configured, DeclaredIn(children, Prefix(name), fileId))
      ensures ok ==> AllEntered(infos, idMap, DeclaredIn(children, Prefix(name), fileId))
      ensures ok ==> idMap.Keys == old(idMap.Keys) + IdentifiedIn(children, Prefix(name))
      ensures ok <==> Fresh(NamesIn(children, Prefix(name)), old(configured))
      ensures Grew(old(configured), configured, loggers, loggers')
      decreases children, 0
    {
      hide Valid, Level, Parent, Placed, Collected, Declared, Identified, Fits, Prefix, Grew, AddedTo, Kept,
           AllEntered, DeclaredIn, IdentifiedIn, Names, NamesIn, Fresh;
      InNone(Prefix(name), fileId);
      NothingFresh(configured);
      assert children[..|children|] == children;
      LoadedNothing(infos, configured, idMap, loggers);
      ok, loggers' := true, loggers;
      for i := 0 to |children|
        invariant Valid() && Collected(loggers') && Extends(old(idMap), idMap)
        invariant Kept(old(infos), infos, old(configured))
        invariant AddedTo(old(configured), configured, DeclaredIn(children[..i], Prefix(name), fileId))
        invariant AllEntered(infos, idMap, DeclaredIn(children[..i], Prefix(name), fileId))
        invariant idMap.Keys == old(idMap.Keys) + IdentifiedIn(children[..i], Prefix(name))
        invariant Fresh(NamesIn(children[..i], Prefix(name)), old(configured))
        invariant Grew(old(configured), configured, loggers, loggers')
      {
        InNext(children, i, Prefix(name), fileId);
        AddedKeys(old(configured), configured, DeclaredIn(children[..i], Prefix(name), fileId));
        FreshNext(children, i, Prefix(name), fileId, old(configured), configured);
        var child := children[i];
        if !child.section.Empty() {
          ghost var (infos1, ids1, configured1, loggers1) := (infos, idMap, configured, loggers');
          PlacedChild(idMap, name, child.name);
          ok, loggers' := LoadLogger(child.section, level + 1, Prefix(name) + child.name, id, loggers');
          GrewBy(old(configured), configured1, loggers, loggers1);
          KeptLonger(old(infos), infos1, infos, old(configured), configured1);
          GrewMore(old(configured), configured1, configured, loggers, loggers1, loggers');
          if !ok {
            NotFresh(children, i + 1, Prefix(name), old(configured));
            return;
          }
          ghost var d := DeclaredIn(children[..i], Prefix(name), fileId);
          ghost var d' := Declared(child.section, Prefix(name) + child.name, fileId);
          AddedToMore(old(configured), configured1, configured, d, d');
          EnteredMore(infos1, infos, ids1, idMap, configured1, d, d');
        }
      }
    }

    // The loggers that name resolution can find.
    ghost function Known(): set<string>
      reads this`configured, this`idMap
    {
      set n | n in configured && n in idMap
    }

    method GetLoggerInfo(name: string) returns (key: string)
      requires "" !in idMap && SearchEnds(Known(), name)
      ensures Resolves(Known(), name, key)
    {
      var lastPos := |name|;
      while lastPos != -1
        invariant -1 <= lastPos <= |name|
        invariant forall n :: n in Known() && AncestorOrSelf(n, name) ==> |n| <= lastPos
        invariant lastPos == 0 ==> name == "" || name[0] == '.'
        invariant 0 <= lastPos < |name| ==> name[lastPos] == '.'
        decreases lastPos
      {
        key := name[..lastPos];
        if key in idMap && key in configured {
          assert key in Known();
          assert AncestorOrSelf(key, name) by {
            assert lastPos < |name| ==> key + "." == name[..lastPos + 1];
          }
          return;
        }
        forall n | n in Known() && AncestorOrSelf(n, name)
          ensures |n| <= NextPos(name, lastPos)
        {
          assert n == name[..|n|];
          assert |n| != lastPos;
          assert name[..lastPos][|n|] == '.';
        }
        lastPos := NextPos(name, lastPos);
      }
      return ROOT;
    }

    // A sink of the current file; its redirect filter lets nothing through at first.
    method AddSink(spec: SinkSpec) returns (ok: bool)
      requires Valid()
      modifies this`sinks
      ensures Valid() && ok == (spec.name !in old(sinks))
      ensures sinks == if ok then EnterSink(old(sinks), spec, fileId) else old(sinks)
    {
      hide IdsOk, LoggersOk, WiredOk, LinksOk, RoutingOk;
      ok := spec.name !in sinks;
      var key := spec.name + Decimal(fileId);
      if ok && key !in sinks {
        NewSinkOk(sinks, wired, infos, key, spec.filter);
        sinks := sinks[key := SinkInfo(spec.filter, NOTHING)];
      }
    }

    method LoadSinks(specs: seq<SinkSpec>) returns (ok: bool)
      requires Valid()
      modifies this`sinks
      ensures Valid() && Extends(old(sinks), sinks)
      ensures ok == Accepts(old(sinks), specs, fileId)
      ensures ok ==> sinks == EnterSinks(old(sinks), specs, fileId)
    {
      hide Valid, EnterSink;
      ok := true;
      for i := 0 to |specs|
        invariant Valid() && Extends(old(sinks), sinks)
        invariant sinks == EnterSinks(old(sinks), specs[..i], fileId)
        invariant forall j :: 0 <= j < i ==> specs[j].name !in EnterSinks(old(sinks), specs[..j], fileId)
      {
        assert specs[..i + 1][..i] == specs[..i];
        EnterExtends(sinks, specs[i], fileId);
        ok := AddSink(specs[i]);
        if !ok {
          return;
        }
      }
      assert specs[..|specs|] == specs;
    }

    // One configuration file: its sinks, then its loggers.
    method LoadConfig(config: Config, loggers: seq<string>) returns (ok: bool, loggers': seq<string>)
      requires Valid() && Collected(loggers) && config.WellFormed()
      modifies this`fileId, this`sinks, this`idMap, this`order, this`counts, this`configured, this`infos, ids
      ensures Valid() && Collected(loggers') && Extends(old(idMap), idMap) && Extends(old(sinks), sinks)
      ensures fileId == old(fileId) + 1 && Kept(old(infos), infos, old(configured))
      ensures ok ==> sinks == EnterSinks(old(sinks), config.sinks, fileId)
      ensures ok ==> AddedTo(old(configured), configured, Declared(config.loggers, "", fileId))
      ensures ok ==> AllEntered(infos, idMap, Declared(config.loggers, "", fileId))
      ensures ok ==> idMap.Keys == old(idMap.Keys) + Identified(config.loggers, "")
      ensures ok <==> Accepts(old(sinks), config.sinks, fileId) && Fresh(Names(config.loggers, ""), old(configured))
      ensures Grew(old(configured), configured, loggers, loggers')
    {
      hide Valid, Collected, Fits, Declared, Identified, EnterSinks, Accepts, AllEntered, AddedTo, Grew, Kept,
           Names, Fresh;
      LoadedNothing(infos, configured, idMap, loggers);
      fileId := fileId + 1;
      loggers' := loggers;
      ok := LoadSinks(config.sinks);
      if ok {
        ok, loggers' := LoadLogger(config.loggers, -1, "", 0, loggers);
      }
    }

    // All files of one Initialize call: sinks and loggers are entered file by file, and the
    // new loggers are linked only if every file loads.
    method LoadConfigs(configs: seq<Config>) returns (ok: bool, loggers: seq<string>)
      requires Valid() && forall c :: c in configs ==> c.WellFormed()
      modifies this`fileId, this`sinks, this`idMap, this`order, this`counts, this`configured, this`infos, ids
      ensures Valid() && Collected(loggers) && Extends(old(idMap), idMap) && Extends(old(sinks), sinks)
      ensures Kept(old(infos), infos, old(configured)) && Grew(old(configured), configured, [], loggers)
      ensures ok ==> fileId == old(fileId) + |configs| && sinks == SinksOf(old(sinks), configs, old(fileId))
      ensures ok ==> AddedTo(old(configured), configured, DeclaredBy(configs, old(fileId)))
      ensures ok ==> AllEntered(infos, idMap, DeclaredBy(configs, old(fileId)))
      ensures ok ==> idMap.Keys == old(idMap.Keys) + IdentifiedBy(configs)
      ensures ok <==> FilesLoad(configs, old(sinks), old(configured), old(fileId))
    {
      hide Valid, Declared, Identified, EnterSinks, Accepts, Collected, Grew, AddedTo, Kept, AllEntered, Names,
           Fresh, FilesLoad;
      NoFiles(sinks, configured, fileId);
      assert configs[..|configs|] == configs;
      loggers := [];
      CollectedNone();
      LoadedNothing(infos, configured, idMap, loggers);
      ok := true;
      for i := 0 to |configs|
        invariant Valid() && Collected(loggers) && Extends(old(idMap), idMap) && Extends(old(sinks), sinks)
        invariant Kept(old(infos), infos, old(configured)) && Grew(old(configured), configured, [], loggers)
        invariant fileId == old(fileId) + i && sinks == SinksOf(old(sinks), configs[..i], old(fileId))
        invariant AddedTo(old(configured), configured, DeclaredBy(configs[..i], old(fileId)))
        invariant AllEntered(infos, idMap, DeclaredBy(configs[..i], old(fileId)))
        invariant idMap.Keys == old(idMap.Keys) + IdentifiedBy(configs[..i])
        invariant FilesLoad(configs[..i], old(sinks), old(configured), old(fileId))
      {
        assert configs[..i + 1][..i] == configs[..i];
        AddedKeys(old(configured), configured, DeclaredBy(configs[..i], old(fileId)));
        FilesLoadNext(configs, old(sinks), old(configured), configured, old(fileId), i);
        ghost var (infos1, ids1, configured1, loggers1) := (infos, idMap, configured, loggers);
        ok, loggers := LoadConfig(configs[i], loggers);
        GrewBy(old(configured), configured1, [], loggers1);
        KeptLonger(old(infos), infos1, infos, old(configured), configured1);
        GrewMore(old(configured), configured1, configured, [], loggers1, loggers);
        if !ok {
          FilesDoNotLoad(configs, old(sinks), old(configured), old(fileId), i + 1);
          return;
        }
        ghost var (d, d') := (DeclaredBy(configs[..i], old(fileId)), Declared(configs[i].loggers, "", fileId));
        AddedToMore(old(configured), configured1, configured, d, d');
        EnteredMore(infos1, infos, ids1, idMap, configured1, d, d');
      }
    }

    method Initialize(configs: seq<Config>) returns (ok: bool)
      requires Valid() && forall c :: c in configs ==> c.WellFormed()
      modifies this`fileId, this`sinks, this`idMap, this`order, this`counts, this`configured, this`infos, ids
      ensures Valid() && Extends(old(idMap), idMap) && Extends(old(sinks), sinks)
      ensures Kept(old(infos), infos, old(configured)) && old(configured) <= configured
      ensures ok ==> fileId == old(fileId) + |configs| && sinks == SinksOf(old(sinks), configs, old(fileId))
      ensures ok ==> AddedTo(old(configured), configured, DeclaredBy(configs, old(fileId)))
      ensures ok ==> AllLinked(infos, idMap, sinks.Keys, DeclaredBy(configs, old(fileId)))
      ensures ok ==> forall n :: n in DeclaredBy(configs, old(fileId)) ==>
                n in infos && AsDeclared(infos[n], DeclaredBy(configs, old(fileId))[n].section)
      ensures ok ==> forall n, key :: n in DeclaredBy(configs, old(fileId)) && n in infos ==>
                var d := DeclaredBy(configs, old(fileId))[n];
                d.section.sinkNames.Some? ==>
                  (key in infos[n].sinks <==> key in sinks && Named(d.section.sinkNames.value, d.fileId, key))
      ensures ok ==> forall i, j, key :: Enters(configs, old(sinks), old(fileId), i, j, key) ==>
                key in sinks && sinks[key].initFilter == configs[i].sinks[j].filter
      ensures ok ==> idMap.Keys == old(idMap.Keys) + IdentifiedBy(configs)
      ensures ok <==> FilesLoad(configs, old(sinks), old(configured), old(fileId))
      ensures Early() <==> old(Early()) || (old(infos)[ROOT].active && ROOT in configured - old(configured))
    {
      hide Valid, DeclaredBy, SinksOf, Entered, Collected, WithLinks, EntryOf, EarlyRoot, FilesLoad, IdentifiedBy;
      EarlyIf();
      var loggers;
      ok, loggers := LoadConfigs(configs);
      if ok {
        ghost var before := infos;
        LinkLoggersWithSinks(loggers);
        SinkFilters(configs, old(sinks), old(fileId));
        forall n | n in DeclaredBy(configs, old(fileId))
          ensures LinkedEntry(infos, idMap, sinks.Keys, n, DeclaredBy(configs, old(fileId))[n])
        {
          assert n in SetOf(loggers);
          EnteredIn(before, idMap, n, DeclaredBy(configs, old(fileId))[n]);
          EntryLinked(before, infos, idMap, sinks.Keys, n, DeclaredBy(configs, old(fileId))[n]);
        }
        forall n | n in old(configured) && n in old(infos)
          ensures n in infos && infos[n] == old(infos)[n]
        {
          assert n !in SetOf(loggers);
        }
      }
      EarlyIf();
      if ok {
        EntriesAsDeclared(DeclaredBy(configs, old(fileId)));
      }
    }

    lemma SinkFilters(configs: seq<Config>, before: map<string, SinkInfo>, number: nat)
      requires sinks == SinksOf(before, configs, number)
      ensures forall i, j, key :: Enters(configs, before, number, i, j, key) ==>
                key in sinks && sinks[key].initFilter == configs[i].sinks[j].filter
    {
      hide SinksOf, FirstSpec;
      forall i, j, key | Enters(configs, before, number, i, j, key)
        ensures key in sinks && sinks[key].initFilter == configs[i].sinks[j].filter
      {
        SinkFilterKept(before, configs, number, i, j, key);
      }
    }

    lemma EntriesAsDeclared(declared: map<string, Declaration>)
      requires AllLinked(infos, idMap, sinks.Keys, declared)
      ensures forall n :: n in declared ==> n in infos && AsDeclared(infos[n], declared[n].section)
      ensures forall n, key :: n in declared && n in infos && declared[n].section.sinkNames.Some? ==>
                (key in infos[n].sinks <==>
                 key in sinks && Named(declared[n].section.sinkNames.value, declared[n].fileId, key))
    {
      hide WithLinks, EntryOf, Named;
      forall n, key | n in declared
        ensures n in infos && AsDeclared(infos[n], declared[n].section)
        ensures declared[n].section.sinkNames.Some? ==>
                  (key in infos[n].sinks <==>
                   key in sinks && Named(declared[n].section.sinkNames.value, declared[n].fileId, key))
      {
        assert LinkedEntry(infos, idMap, sinks.Keys, n, declared[n]);
        EntryIs(declared[n], n, idMap, infos[n].active, sinks.Keys, key);
      }
      forall n | n in declared
        ensures n in infos && AsDeclared(infos[n], declared[n].section)
      {
        assert LinkedEntry(infos, idMap, sinks.Keys, n, declared[n]);
        EntryIs(declared[n], n, idMap, infos[n].active, sinks.Keys, "");
      }
    }

    lemma EarlyIf()
      requires Valid()
      ensures Early() <==> infos[ROOT].active && wired[ROOT].fileId == 0 && ROOT in configured
      ensures ROOT in infos && (infos[ROOT].active <==> ROOT in wired)
      ensures infos[ROOT].active && ROOT !in configured ==> wired[ROOT].fileId == 0
    {
      hide IdsOk, RoutingOk, LinksOk;
    }

    // Without ids the budget is not used.
    lemma NoNames()
      requires Valid() && idMap.Keys == {}
      ensures WithinBudget(counts) && ROOT !in idMap
    {
      forall l | 0 <= l < 8
        ensures counts[l] == 0
      {
        assert counts[l] >= 1 ==> Assigned(Table(), l, 1);
      }
      assert ROOT !in idMap.Keys;
    }

    lemma EightCounts()
      requires Valid()
      ensures |counts| == 8
    {}

    lemma CollectedNone()
      ensures Collected([])
    {}

    method LinkLoggersWithSinks(loggers: seq<string>)
      requires Valid() && Collected(loggers)
      modifies this`infos
      ensures Valid()
      ensures infos.Keys == old(infos.Keys)
      ensures forall n :: n in infos ==>
                infos[n] == if n in loggers then WithLinks(old(infos)[n], sinks.Keys) else old(infos)[n]
    {
      hide Valid, Linked;
      for i := 0 to |loggers|
        invariant Valid() && infos.Keys == old(infos.Keys)
        invariant forall n :: n in infos ==>
                    infos[n] == if n in loggers[..i] then WithLinks(old(infos)[n], sinks.Keys) else old(infos)[n]
      {
        var n := loggers[i];
        assert n !in loggers[..i];
        LinkOne(n);
        assert forall m :: m in loggers[..i + 1] <==> m in loggers[..i] || m == n;
      }
      assert loggers[..|loggers|] == loggers;
    }

    // Looks up each sink name of one logger.
    method LinkOne(n: string)
      requires Valid() && n in configured && n in infos && (infos[n].active ==> n == ROOT && Early())
      modifies this`infos
      ensures Valid()
      ensures infos == old(infos)[n := WithLinks(old(infos)[n], sinks.Keys)]
      ensures Early() <==> old(Early())
    {
      hide IdsOk, RoutingOk, WiredOk, LinksOk, InfosOk, EarlyRoot, ROOT;
      var info := infos[n];
      var links := info.sinks;
      for i := 0 to |info.sinkNames|
        invariant links == info.sinks + Linked(info.sinkNames[..i], info.fileId, sinks.Keys)
      {
        assert info.sinkNames[..i + 1][..i] == info.sinkNames[..i];
        var key := info.sinkNames[i] + Decimal(info.fileId);
        if key in sinks {
          links := links + [key];
        }
      }
      assert info.sinkNames[..|info.sinkNames|] == info.sinkNames;
      LinkWired(wired, infos, sinks, n);
      LinkInfos(infos, configured, idMap, sinks.Keys, n);
      infos := infos[n := info.(sinks := links)];
    }

    // Adds the interval and the filter of a logger to each of its sinks.
    method AddFilters(info: LoggerInfo)
      requires forall s :: s in info.sinks ==> s in sinks
      modifies this`sinks
      ensures sinks == WithFilters(old(sinks), info, info.sinks)
    {
      hide RangeFilter, AddFilter;
      for i := 0 to |info.sinks|
        invariant sinks == WithFilters(old(sinks), info, info.sinks[..i])
      {
        var s := info.sinks[i];
        sinks := sinks[s := AddFilter(sinks[s], RangeFilter(info), info.filter)];
        assert info.sinks[..i + 1][..i] == info.sinks[..i];
      }
      assert info.sinks[..|info.sinks|] == info.sinks;
    }

    lemma RoutesKnown()
      requires Valid()
      ensures LinksKnown(Routes()) && ROOT in infos
    {
      hide IdsOk, RoutingOk, WiredOk;
    }

    method Activate(key: string)
      requires Valid() && key in infos && !infos[key].active && LinksKnown(Routes())
      modifies this`infos, this`sinks, this`wired
      ensures Valid() && key !in old(wired)
      ensures Routes() == Got(old(Routes()), key)
      ensures Early() <==> old(Early())
    {
      hide IdsOk, InfosOk, LinksOk, RoutingOk, WiredOk, WithFilters, EarlyRoot, ROOT;
      var info := infos[key];
      ActivateInfos(infos, configured, idMap, key);
      ActivateWired(wired, infos, key);
      ActivateLinks(infos, wired, sinks, key);
      infos := infos[key := info.(active := true)];
      AddFilters(info);
      FiltersAdded(old(sinks), info, info.sinks);
      Activated(old(sinks), sinks, wired, key, info);
      wired := wired[key := info];
      SameSinks(infos, wired, old(sinks), sinks, info);
    }

    // The first call for a logger activates it; later calls change nothing.
    method GetLogger(name: string) returns (key: string)
      requires Valid() && SearchEnds(Known(), name)
      modifies this`infos, this`sinks, this`wired
      ensures Valid()
      ensures Resolves(Known(), name, key) && key in old(infos) && LinksKnown(old(Routes()))
      ensures Routes() == Got(old(Routes()), key)
      ensures Early() <==> old(Early())
    {
      hide TableOk, RoutingOk, WiredOk, LinksOk, Level, Unit, Resolves;
      key := GetLoggerInfo(name);
      ResolvedExists(Known(), name, key);
      assert key in infos;
      RoutesKnown();
      hide *;
      if !infos[key].active {
        Activate(key);
      }
      assert Routes() == Got(old(Routes()), key);
    }

    // A sequence of calls.
    method GetLoggers(names: seq<string>) returns (keys: seq<string>)
      requires Valid() && forall i :: 0 <= i < |names| ==> SearchEnds(Known(), names[i])
      modifies this`infos, this`sinks, this`wired
      ensures Valid()
      ensures ResolvesAll(Known(), names, keys)
      ensures (forall k :: k in keys ==> k in old(infos)) && LinksKnown(old(Routes()))
      ensures Routes() == GotAll(old(Routes()), keys)
      ensures Early() <==> old(Early())
    {
      hide Valid, Resolves, SearchEnds, Got, LinksKnown, EarlyRoot;
      keys := [];
      RoutesKnown();
      for i := 0 to |names|
        invariant Valid() && |keys| == i
        invariant forall j :: 0 <= j < i ==> Resolves(Known(), names[j], keys[j])
        invariant forall k :: k in keys ==> k in old(infos)
        invariant Routes() == GotAll(old(Routes()), keys)
        invariant Early() <==> old(Early())
      {
        var key := GetLogger(names[i]);
        assert (keys + [key])[..i] == keys;
        keys := keys + [key];
      }
    }

    // In every state: delivery follows the loggers as they are now if and only if Root was not
    // activated before it was configured, or has no sink that would take a record of Root.
    lemma DeliveryFollowsLinks()
      requires Valid() && WithinBudget(counts) && ROOT !in idMap
      ensures ROOT in infos && (FollowsLinks(infos, sinks) <==> !(Early() && RootWouldSend(infos, sinks)))
    {
      hide TableOk, WiredOk, LinksOk, RoutingOk, EarlyRoot, FollowsLinks, RootWouldSend;
      FollowsLinksExactly(Table(), infos, configured, sinks, wired);
    }

    lemma EarlySendsNothing()
      requires Valid() && Early() && WithinBudget(counts) && ROOT !in idMap
      ensures ROOT in infos && forall s, r: Record :: RootSends(infos, sinks, s, r) ==> !sinks[s].redirect(r)
    {
      hide TableOk, InRange, WithinBudget, AcceptedNow;
      forall s, r: Record | RootSends(infos, sinks, s, r)
        ensures !sinks[s].redirect(r)
      {
        EarlyRootSendsNothing(Table(), infos, configured, sinks, wired, s, r);
      }
    }

    // The filter of a sink on a record of logger y.
    method FiltFun(sink: string, r: Record, ghost y: string) returns (passes: bool)
      requires Valid() && sink in sinks && y in infos && r.loggerId == infos[y].id
      ensures passes <==> sinks[sink].initFilter(r) && Reaches(wired, sink, r)
      ensures WithinBudget(counts) && ROOT !in idMap ==>
                (passes <==> sinks[sink].initFilter(r) && Accepted(wired, sink, y, r))
      ensures WithinBudget(counts) && ROOT !in idMap && !Early() ==>
                (passes <==> sinks[sink].initFilter(r) && AcceptedNow(infos, sink, y, r))
    {
      hide TableOk, InfosOk, WiredOk, LinksOk, Reaches, Accepted, AcceptedNow, WithinBudget, Unit, EarlyRoot;
      passes := sinks[sink].Passes(r);
      assert sinks[sink].redirect(r) <==> Reaches(wired, sink, r);
      if WithinBudget(counts) && ROOT !in idMap {
        Delivery(Table(), infos, configured, sinks, wired, sink, y, r);
        if !Early() {
          AcceptedAsNow(Table(), infos, configured, sinks, wired, sink, y, r);
        }
      }
    }
  }

  // Any GetLogger call before the configuration activates Root, as the constructors of TcpClient
  // and ServerList do: Root is later linked to its sinks as the files say, and yet none of its
  // records reaches them.
  method RootBeforeConfig(name: string, configs: seq<Config>) returns (m: Manager, ok: bool)
    requires name == "" || name[0] != '.'
    requires (forall c :: c in configs ==> c.WellFormed()) && ROOT in DeclaredBy(configs, 0)
    ensures fresh(m) && m.Valid() && ROOT in m.infos && m.infos[ROOT].active
    ensures ok <==> FilesLoad(configs, map[], {}, 0)
    ensures ok ==> m.Early() && LinkedEntry(m.infos, m.idMap, m.sinks.Keys, ROOT, DeclaredBy(configs, 0)[ROOT])
    ensures ok ==> m.idMap.Keys == IdentifiedBy(configs) && m.sinks.Keys == SinksOf(map[], configs, 0).Keys
    ensures ok ==> forall s :: s in m.sinks ==> m.sinks[s] == SinksOf(map[], configs, 0)[s]
    ensures ok && WithinBudget(m.counts) && ROOT !in m.idMap ==>
              forall s, r: Record :: RootSends(m.infos, m.sinks, s, r) ==> !m.sinks[s].redirect(r)
  {
    hide Manager.Valid, EarlyRoot, LinkedEntry, RootSends, WithinBudget, FilesLoad, DeclaredBy, SinksOf, IdentifiedBy;
    m := new Manager();
    var key := m.GetLogger(name);
    m.EarlyIf();
    ok := m.Initialize(configs);
    m.EarlyIf();
    m.EightCounts();
    if ok && WithinBudget(m.counts) && ROOT !in m.idMap {
      m.EarlySendsNothing();
    }
  }

  // One sink, and a Root logger that names it.
  const ROOT_SECTION: Section := Section(Some(["s"]), None, [])

  const EXAMPLE: Config := Config([SinkSpec("s", EVERYTHING)], Section(None, None, [Child(ROOT, ROOT_SECTION)]))

  // This configuration loads after a GetLogger call: Root is active, linked to the sink, and
  // neither its filter nor the sink's own refuses the record, yet the sink does not take it.
  method RootLosesRecord(name: string, r: Record) returns (m: Manager)
    requires (name == "" || name[0] != '.') && r.loggerId == 0
    ensures fresh(m) && m.Valid() && m.Early() && ROOT in m.infos && m.infos[ROOT].active
    ensures RootSends(m.infos, m.sinks, "s1", r) && !m.sinks["s1"].Passes(r)
  {
    hide Manager.Valid, EarlyRoot, FilesLoad, DeclaredBy, SinksOf, IdentifiedBy, WithinBudget;
    ExampleDeclares();
    ExampleLoads();
    var ok;
    m, ok := RootBeforeConfig(name, [EXAMPLE]);
    m.NoNames();
    ExampleSinks();
    assert m.sinks.Keys == {"s1"};
    ExampleLinked(m.infos, m.idMap);
  }

  lemma ExampleDeclares()
    ensures EXAMPLE.WellFormed() && IdentifiedBy([EXAMPLE]) == {}
    ensures DeclaredBy([EXAMPLE], 0) == map[ROOT := Declaration(ROOT_SECTION, 1)]
  {
    var (children, none) := (EXAMPLE.loggers.children, [EXAMPLE][..0]);
    assert EXAMPLE.WellFormed() by {
      assert Fits(ROOT_SECTION, 0) && DotFree(ROOT) && forall c :: c in children ==> c == Child(ROOT, ROOT_SECTION);
    }
    assert none == [] && DeclaredBy(none, 0) == map[] && IdentifiedBy(none) == {};
    assert children[..0] == [] && children[..1] == children && Prefix("") == "" && "" + ROOT == ROOT;
    InNone("", 1);
    InNext(children, 0, "", 1);
    assert Declared(ROOT_SECTION, ROOT, 1) == map[ROOT := Declaration(ROOT_SECTION, 1)];
    assert Identified(ROOT_SECTION, ROOT) == {};
    hide DeclaredIn, IdentifiedIn;
    assert Declared(EXAMPLE.loggers, "", 1) == map[ROOT := Declaration(ROOT_SECTION, 1)];
    assert Identified(EXAMPLE.loggers, "") == {};
  }

  lemma ExampleLoads()
    ensures FilesLoad([EXAMPLE], map[], {}, 0)
  {
    var (children, none) := (EXAMPLE.loggers.children, [EXAMPLE][..0]);
    assert none == [] && children[..0] == [] && Prefix("") == "" && "" + ROOT == ROOT;
    assert NamesIn(children[..0], "") == [] && Names(ROOT_SECTION, ROOT) == [ROOT];
    assert NamesIn(children, "") == [] + Names(ROOT_SECTION, ROOT) == [ROOT];
    assert Names(EXAMPLE.loggers, "") == NamesIn(children, "");
    assert NamesBy(none) == [] && NamesBy([EXAMPLE]) == [] + Names(EXAMPLE.loggers, "") == [ROOT];
    FreshOne(ROOT, {});
    assert SinksOf(map[], none, 0) == map[];
    assert EXAMPLE.sinks[..0] == [] && EnterSinks(map[], EXAMPLE.sinks[..0], 1) == map[];
  }

  lemma ExampleSinks()
    ensures SinksOf(map[], [EXAMPLE], 0) == map["s1" := SinkInfo(EVERYTHING, NOTHING)]
  {
    assert [EXAMPLE][..0] == [] && SinksOf(map[], [EXAMPLE][..0], 0) == map[];
    assert EXAMPLE.sinks[..0] == [] && EnterSinks(map[], EXAMPLE.sinks[..0], 1) == map[];
    assert "s" + Decimal(1) == "s1";
  }

  lemma ExampleLinked(infos: map<string, LoggerInfo>, ids: map<string, nat>)
    requires LinkedEntry(infos, ids, {"s1"}, ROOT, Declaration(ROOT_SECTION, 1))
    ensures infos[ROOT].sinks == ["s1"] && infos[ROOT].filter == EVERYTHING
  {
    assert ["s"][..0] == [] && "s" + Decimal(1) == "s1";
    assert Linked(["s"][..0], 1, {"s1"}) == [];
  }

  // The other way round Root is not early, whatever is asked for afterwards.
  method ConfigBeforeRoot(configs: seq<Config>, names: seq<string>) returns (m: Manager, ok: bool)
    requires forall c :: c in configs ==> c.WellFormed()
    requires forall i :: 0 <= i < |names| ==> names[i] == "" || names[i][0] != '.'
    ensures fresh(m) && m.Valid() && !m.Early()
  {
    m := new Manager();
    m.EarlyIf();
    ok := m.Initialize(configs);
    var _ := m.GetLoggers(names);
  }
}
