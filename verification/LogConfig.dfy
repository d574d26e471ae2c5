/**
 Log configuration (log/LogManager.cpp): loggers, sinks and parsed configuration sections, and
 the entries that a configuration describes.
 */
module LogConfig {
  import opened Collections
  import opened DecimalText
  import opened LoggerNames

  const ROOT: string := "Root"

  datatype Record = Record(loggerId: nat, severity: int, message: string)

  type Filter = Record -> bool

  const EVERYTHING: Filter := _ => true
  const NOTHING: Filter := _ => false

  // FiltFun is the conjunction of the two filters.
  datatype SinkInfo = SinkInfo(initFilter: Filter, redirect: Filter) {
    predicate Passes(r: Record) {
      initFilter(r) && redirect(r)
    }
  }

  datatype LoggerInfo = LoggerInfo(id: nat, level: nat, fileId: nat, filter: Filter,
                                   sinkNames: seq<string>, sinks: seq<string>, active: bool)

  const NEW_INFO: LoggerInfo := LoggerInfo(0, 0, 0, EVERYTHING, [], [], false)

  // A settings section; parameters other than Sinks are children without content.
  datatype Section = Section(sinkNames: Option<seq<string>>, filter: Option<Filter>,
                             children: seq<Child>) {
    predicate Empty() {
      sinkNames.None? && |children| == 0
    }
  }

  datatype Child = Child(name: string, section: Section)

  function Prefix(name: string): string {
    if name == "" then "" else name + "."
  }

  // At most eight levels of names, each component non-empty and without a dot.
  ghost predicate Fits(sec: Section, level: int) {
    sec.sinkNames.Some? ||
    forall c :: c in sec.children && !c.section.Empty() ==>
      c.name != "" && DotFree(c.name) && level + 1 < 8 && Fits(c.section, level + 1)
  }

  // The section with the Sinks parameter that declares a logger, and the number of its file.
  datatype Declaration = Declaration(section: Section, fileId: nat)

  // The loggers that a section declares, below a name.
  ghost function Declared(sec: Section, name: string, fileId: nat): map<string, Declaration>
    decreases sec, 1
  {
    if sec.sinkNames.Some? then map[name := Declaration(sec, fileId)]
    else DeclaredIn(sec.children, Prefix(name), fileId)
  }

  ghost function DeclaredIn(children: seq<Child>, prefix: string, fileId: nat): map<string, Declaration>
    decreases children, 0
  {
    if |children| == 0 then map[]
    else
      var last := children[|children| - 1];
      DeclaredIn(children[..|children| - 1], prefix, fileId) +
      if last.section.Empty() then map[] else Declared(last.section, prefix + last.name, fileId)
  }

  // The names that get an id: loggers other than Root, and the sections above loggers.
  ghost function Identified(sec: Section, name: string): set<string>
    decreases sec, 1
  {
    if sec.sinkNames.Some? then {name} - {ROOT}
    else if sec.Empty() then {}
    else {name} - {""} + IdentifiedIn(sec.children, Prefix(name))
  }

  ghost function IdentifiedIn(children: seq<Child>, prefix: string): set<string>
    decreases children, 0
  {
    if |children| == 0 then {}
    else
      var last := children[|children| - 1];
      IdentifiedIn(children[..|children| - 1], prefix) +
      if last.section.Empty() then {} else Identified(last.section, prefix + last.name)
  }

  // One more child declares and identifies what its section does.
  lemma InNext(children: seq<Child>, i: nat, prefix: string, fileId: nat)
    requires i < |children|
    ensures var (front, c) := (children[..i], children[i]);
            && DeclaredIn(children[..i + 1], prefix, fileId) ==
               (if c.section.Empty() then DeclaredIn(front, prefix, fileId)
                else DeclaredIn(front, prefix, fileId) + Declared(c.section, prefix + c.name, fileId))
            && IdentifiedIn(children[..i + 1], prefix) ==
               (if c.section.Empty() then IdentifiedIn(front, prefix)
                else IdentifiedIn(front, prefix) + Identified(c.section, prefix + c.name))
  {
    hide Declared, Identified;
    assert children[..i + 1][..i] == children[..i];
    assert DeclaredIn(children[..i], prefix, fileId) + map[] == DeclaredIn(children[..i], prefix, fileId);
  }

  lemma InNone(prefix: string, fileId: nat)
    ensures DeclaredIn([], prefix, fileId) == map[] && IdentifiedIn([], prefix) == {}
  {}

  // ----- When loading succeeds -----

  // The names of the declared loggers in the order of the sections, one for each declaration.
  ghost function Names(sec: Section, name: string): seq<string>
    decreases sec, 1
  {
    if sec.sinkNames.Some? then [name] else NamesIn(sec.children, Prefix(name))
  }

  ghost function NamesIn(children: seq<Child>, prefix: string): seq<string>
    decreases children, 0
  {
    if |children| == 0 then []
    else
      var last := children[|children| - 1];
      NamesIn(children[..|children| - 1], prefix) +
      if last.section.Empty() then [] else Names(last.section, prefix + last.name)
  }

  // No logger is declared twice, and none that exists already.
  ghost predicate Fresh(names: seq<string>, configured: set<string>) {
    NoDuplicates(names) && forall n :: n in names ==> n !in configured
  }

  lemma FreshAppend(a: seq<string>, b: seq<string>, c: set<string>)
    ensures Fresh(a + b, c) <==> Fresh(a, c) && Fresh(b, c + SetOf(a))
  {
    var all := a + b;
    if Fresh(all, c) {
      assert forall i :: 0 <= i < |a| ==> all[i] == a[i];
      assert forall i :: 0 <= i < |b| ==> all[|a| + i] == b[i];
    }
    if Fresh(a, c) && Fresh(b, c + SetOf(a)) {
      forall i, j | 0 <= i < j < |all|
        ensures all[i] != all[j]
      {
        if i < |a| && |a| <= j {
          assert all[i] in SetOf(a) && all[j] in b;
        }
      }
    }
  }

  lemma {:induction false} NamesDeclared(sec: Section, name: string, fileId: nat)
    ensures SetOf(Names(sec, name)) == Declared(sec, name, fileId).Keys
    decreases sec, 1
  {
    if sec.sinkNames.None? {
      NamesInDeclared(sec.children, Prefix(name), fileId);
    }
  }

  lemma {:induction false} NamesInDeclared(children: seq<Child>, prefix: string, fileId: nat)
    ensures SetOf(NamesIn(children, prefix)) == DeclaredIn(children, prefix, fileId).Keys
    decreases children, 0
  {
    if |children| > 0 {
      var (front, last) := (children[..|children| - 1], children[|children| - 1]);
      NamesInDeclared(front, prefix, fileId);
      NamesDeclared(last.section, prefix + last.name, fileId);
      hide Names, Declared;
      var more := if last.section.Empty() then [] else Names(last.section, prefix + last.name);
      SetOfAppend(NamesIn(front, prefix), more);
    }
  }

  // One more child loads exactly when its own declarations are fresh at that point.
  lemma FreshNext(children: seq<Child>, i: nat, prefix: string, fileId: nat, c: set<string>, c': set<string>)
    requires i < |children| && c' == c + DeclaredIn(children[..i], prefix, fileId).Keys
    ensures Fresh(NamesIn(children[..i + 1], prefix), c) <==>
            && Fresh(NamesIn(children[..i], prefix), c)
            && (children[i].section.Empty() || Fresh(Names(children[i].section, prefix + children[i].name), c'))
  {
    hide Names, Fresh;
    assert children[..i + 1][..i] == children[..i];
    NamesInDeclared(children[..i], prefix, fileId);
    var names := NamesIn(children[..i], prefix);
    if children[i].section.Empty() {
      assert names + [] == names;
    } else {
      FreshAppend(names, Names(children[i].section, prefix + children[i].name), c);
    }
  }

  lemma {:induction false} FreshSoFar(children: seq<Child>, i: nat, prefix: string, c: set<string>)
    requires i <= |children| && Fresh(NamesIn(children, prefix), c)
    ensures Fresh(NamesIn(children[..i], prefix), c)
    decreases |children|
  {
    var n := |children| - 1;
    if i == |children| {
      assert children[..i] == children;
    } else {
      hide Names, Fresh;
      var more := if children[n].section.Empty() then [] else Names(children[n].section, prefix + children[n].name);
      FreshAppend(NamesIn(children[..n], prefix), more, c);
      FreshSoFar(children[..n], i, prefix, c);
      assert children[..n][..i] == children[..i];
    }
  }

  lemma FreshOne(name: string, c: set<string>)
    ensures Fresh([name], c) <==> name !in c
  {
    assert [name][0] in [name];
  }

  datatype SinkSpec = SinkSpec(name: string, filter: Filter)

  datatype Config = Config(sinks: seq<SinkSpec>, loggers: Section) {
    ghost predicate WellFormed() {
      loggers.sinkNames.None? && Fits(loggers, -1)
    }
  }

  // The loggers that some files declare; the file numbers continue from the last one given.
  ghost function DeclaredBy(configs: seq<Config>, fileId: nat): map<string, Declaration> {
    if |configs| == 0 then map[]
    else
      DeclaredBy(configs[..|configs| - 1], fileId) +
      Declared(configs[|configs| - 1].loggers, "", fileId + |configs|)
  }

  ghost function NamesBy(configs: seq<Config>): seq<string> {
    if |configs| == 0 then []
    else NamesBy(configs[..|configs| - 1]) + Names(configs[|configs| - 1].loggers, "")
  }

  ghost function IdentifiedBy(configs: seq<Config>): set<string> {
    if |configs| == 0 then {}
    else IdentifiedBy(configs[..|configs| - 1]) + Identified(configs[|configs| - 1].loggers, "")
  }

  // The entry of a declared logger before it is linked to sinks: the declaration says what it
  // filters and which sinks it names, its place in the hierarchy gives id and level.
  function Entry(d: Declaration, id: nat, level: nat, active: bool): LoggerInfo {
    LoggerInfo(id, level, d.fileId, if d.section.filter.Some? then d.section.filter.value else EVERYTHING,
               if d.section.sinkNames.Some? then d.section.sinkNames.value else [], [], active)
  }

  // The entry that a declaration gives to a name.
  ghost function EntryOf(d: Declaration, name: string, ids: map<string, nat>, active: bool): LoggerInfo {
    if name == ROOT || name !in ids then Entry(d, 0, 0, active) else Entry(d, ids[name], Level(name), active)
  }

  ghost predicate Entered(infos: map<string, LoggerInfo>, ids: map<string, nat>, name: string, d: Declaration) {
    && (name == ROOT || name in ids)
    && name in infos && infos[name] == EntryOf(d, name, ids, infos[name].active)
  }

  // A sink section of a file: the first of its name is entered, and lets nothing through yet.
  function EnterSink(sinks: map<string, SinkInfo>, spec: SinkSpec, fileId: nat): map<string, SinkInfo> {
    var key := spec.name + Decimal(fileId);
    if key in sinks then sinks else sinks[key := SinkInfo(spec.filter, NOTHING)]
  }

  function EnterSinks(sinks: map<string, SinkInfo>, specs: seq<SinkSpec>, fileId: nat): map<string, SinkInfo> {
    if |specs| == 0 then sinks
    else EnterSink(EnterSinks(sinks, specs[..|specs| - 1], fileId), specs[|specs| - 1], fileId)
  }

  function SinksOf(sinks: map<string, SinkInfo>, configs: seq<Config>, fileId: nat): map<string, SinkInfo> {
    if |configs| == 0 then sinks
    else
      EnterSinks(SinksOf(sinks, configs[..|configs| - 1], fileId), configs[|configs| - 1].sinks, fileId + |configs|)
  }

  // A sink is refused under a name that is taken; the number is missing in that look-up.
  predicate Accepts(sinks: map<string, SinkInfo>, specs: seq<SinkSpec>, fileId: nat) {
    forall i :: 0 <= i < |specs| ==> specs[i].name !in EnterSinks(sinks, specs[..i], fileId)
  }

  // The sinks of a file that a logger's Sinks parameter names; unknown names are skipped.
  function Linked(names: seq<string>, fileId: nat, keys: set<string>): (links: seq<string>)
    ensures forall s :: s in links ==> s in keys
  {
    if |names| == 0 then []
    else
      var key := names[|names| - 1] + Decimal(fileId);
      Linked(names[..|names| - 1], fileId, keys) + if key in keys then [key] else []
  }

  function WithLinks(info: LoggerInfo, keys: set<string>): LoggerInfo {
    info.(sinks := info.sinks + Linked(info.sinkNames, info.fileId, keys))
  }

  // Every file loads: its sinks are accepted where its turn comes, and no logger is declared
  // twice.
  ghost predicate FilesLoad(configs: seq<Config>, sinks: map<string, SinkInfo>, c: set<string>, fileId: nat) {
    Fresh(NamesBy(configs), c) && AllSinksLoad(configs, sinks, fileId)
  }

  ghost predicate AllSinksLoad(configs: seq<Config>, sinks: map<string, SinkInfo>, fileId: nat) {
    forall i :: 0 <= i < |configs| ==> SinksLoad(configs, sinks, fileId, i)
  }

  ghost predicate SinksLoad(configs: seq<Config>, sinks: map<string, SinkInfo>, fileId: nat, i: nat)
    requires i < |configs|
  {
    Accepts(SinksOf(sinks, configs[..i], fileId), configs[i].sinks, fileId + i + 1)
  }

  lemma {:induction false} NamesByDeclared(configs: seq<Config>, fileId: nat)
    ensures SetOf(NamesBy(configs)) == DeclaredBy(configs, fileId).Keys
  {
    if |configs| > 0 {
      var (front, last) := (configs[..|configs| - 1], configs[|configs| - 1]);
      NamesByDeclared(front, fileId);
      NamesDeclared(last.loggers, "", fileId + |configs|);
      hide Names, Declared;
      SetOfAppend(NamesBy(front), Names(last.loggers, ""));
    }
  }

  lemma SinksLoadPrefix(configs: seq<Config>, sinks: map<string, SinkInfo>, fileId: nat, n: nat, i: nat)
    requires i < n <= |configs|
    ensures SinksLoad(configs[..n], sinks, fileId, i) <==> SinksLoad(configs, sinks, fileId, i)
  {
    assert configs[..n][..i] == configs[..i];
  }

  // One more file loads exactly when its sinks are accepted and its declarations are fresh.
  lemma FilesLoadNext(configs: seq<Config>, sinks: map<string, SinkInfo>, c: set<string>, c': set<string>,
                      fileId: nat, i: nat)
    requires i < |configs| && c' == c + DeclaredBy(configs[..i], fileId).Keys
    ensures FilesLoad(configs[..i + 1], sinks, c, fileId) <==>
            && FilesLoad(configs[..i], sinks, c, fileId)
            && Accepts(SinksOf(sinks, configs[..i], fileId), configs[i].sinks, fileId + i + 1)
            && Fresh(Names(configs[i].loggers, ""), c')
  {
    hide Names, Fresh, Accepts, SinksOf;
    assert configs[..i + 1][..i] == configs[..i];
    NamesByDeclared(configs[..i], fileId);
    FreshAppend(NamesBy(configs[..i]), Names(configs[i].loggers, ""), c);
    SinksLoadNext(configs, sinks, fileId, i);
    hide AllSinksLoad;
  }

  lemma SinksLoadNext(configs: seq<Config>, sinks: map<string, SinkInfo>, fileId: nat, i: nat)
    requires i < |configs|
    ensures AllSinksLoad(configs[..i + 1], sinks, fileId) <==>
            AllSinksLoad(configs[..i], sinks, fileId) && SinksLoad(configs, sinks, fileId, i)
  {
    hide SinksLoad;
    var (longer, shorter) := (configs[..i + 1], configs[..i]);
    if AllSinksLoad(longer, sinks, fileId) {
      forall j | 0 <= j <= i
        ensures SinksLoad(configs, sinks, fileId, j) && (j < i ==> SinksLoad(shorter, sinks, fileId, j))
      {
        assert SinksLoad(longer, sinks, fileId, j);
        SinksLoadPrefix(configs, sinks, fileId, i + 1, j);
        if j < i {
          SinksLoadPrefix(configs, sinks, fileId, i, j);
        }
      }
    }
    if AllSinksLoad(shorter, sinks, fileId) && SinksLoad(configs, sinks, fileId, i) {
      forall j | 0 <= j < |longer|
        ensures SinksLoad(longer, sinks, fileId, j)
      {
        SinksLoadPrefix(configs, sinks, fileId, i + 1, j);
        if j < i {
          assert SinksLoad(shorter, sinks, fileId, j);
          SinksLoadPrefix(configs, sinks, fileId, i, j);
        }
      }
    }
  }

  lemma {:induction false} FilesLoadSoFar(configs: seq<Config>, sinks: map<string, SinkInfo>, c: set<string>,
                                          fileId: nat, i: nat)
    requires i <= |configs| && FilesLoad(configs, sinks, c, fileId)
    ensures FilesLoad(configs[..i], sinks, c, fileId)
    decreases |configs|
  {
    var n := |configs| - 1;
    if i == |configs| {
      assert configs[..i] == configs;
    } else {
      hide FilesLoad, Names, Fresh, Accepts;
      assert configs[..n + 1] == configs;
      FilesLoadNext(configs, sinks, c, c + DeclaredBy(configs[..n], fileId).Keys, fileId, n);
      FilesLoadSoFar(configs[..n], sinks, c, fileId, i);
      assert configs[..n][..i] == configs[..i];
    }
  }

  // ----- What the links and the sinks are -----

  // A key is one of the sink names with the number of the file.
  ghost predicate Named(names: seq<string>, fileId: nat, key: string) {
    exists i :: 0 <= i < |names| && key == names[i] + Decimal(fileId)
  }

  // A logger is linked to a sink exactly when it names the sink and the sink is known.
  lemma {:induction false} LinkedExactly(names: seq<string>, fileId: nat, keys: set<string>, key: string)
    ensures key in Linked(names, fileId, keys) <==> key in keys && Named(names, fileId, key)
  {
    hide Decimal;
    if |names| > 0 {
      var (front, last) := (names[..|names| - 1], names[|names| - 1]);
      LinkedExactly(front, fileId, keys, key);
      if Named(front, fileId, key) {
        var i :| 0 <= i < |front| && key == front[i] + Decimal(fileId);
        assert key == names[i] + Decimal(fileId);
      }
      if Named(names, fileId, key) && key != last + Decimal(fileId) {
        var i :| 0 <= i < |names| && key == names[i] + Decimal(fileId);
        assert key == front[i] + Decimal(fileId);
      }
    }
  }

  // Names are looked up one by one, in order and with repetitions.
  lemma {:induction false} LinkedInOrder(a: seq<string>, b: seq<string>, fileId: nat, keys: set<string>)
    ensures Linked(a + b, fileId, keys) == Linked(a, fileId, keys) + Linked(b, fileId, keys)
    decreases |b|
  {
    hide Decimal;
    if |b| == 0 {
      assert a + b == a;
    } else {
      assert (a + b)[..|a + b| - 1] == a + b[..|b| - 1];
      LinkedInOrder(a, b[..|b| - 1], fileId, keys);
    }
  }

  lemma LinkedOne(name: string, fileId: nat, keys: set<string>)
    ensures Linked([name], fileId, keys) == if name + Decimal(fileId) in keys then [name + Decimal(fileId)] else []
  {
    hide Decimal;
    assert [name][..0] == [] && Linked([], fileId, keys) == [];
  }

  // The first sink section of a file with some key.
  ghost predicate FirstSpec(specs: seq<SinkSpec>, fileId: nat, key: string, j: int) {
    && 0 <= j < |specs| && key == specs[j].name + Decimal(fileId)
    && forall m :: 0 <= m < j ==> key != specs[m].name + Decimal(fileId)
  }

  ghost predicate NoSpec(specs: seq<SinkSpec>, fileId: nat, key: string) {
    forall m :: 0 <= m < |specs| ==> key != specs[m].name + Decimal(fileId)
  }

  // A file enters each new key with the filter of its first section, and lets nothing through
  // yet; other entries stay.
  ghost predicate FileEntered(before: map<string, SinkInfo>, after: map<string, SinkInfo>, specs: seq<SinkSpec>,
                              fileId: nat, key: string) {
    && (key in before ==> key in after && after[key] == before[key])
    && (key !in before && NoSpec(specs, fileId, key) ==> key !in after)
    && (forall j :: key !in before && FirstSpec(specs, fileId, key, j) ==>
          key in after && after[key].initFilter == specs[j].filter && after[key].redirect == NOTHING)
  }

  lemma {:induction false} SinksEntered(sinks: map<string, SinkInfo>, specs: seq<SinkSpec>, fileId: nat, key: string)
    ensures FileEntered(sinks, EnterSinks(sinks, specs, fileId), specs, fileId, key)
  {
    hide Decimal;
    if |specs| > 0 {
      hide FileEntered;
      var (front, n) := (specs[..|specs| - 1], |specs| - 1);
      SinksEntered(sinks, front, fileId, key);
      OneMoreEntered(sinks, EnterSinks(sinks, front, fileId), specs, fileId, key);
    }
  }

  lemma OneMoreEntered(sinks: map<string, SinkInfo>, mid: map<string, SinkInfo>, specs: seq<SinkSpec>, fileId: nat,
                       key: string)
    requires |specs| > 0 && FileEntered(sinks, mid, specs[..|specs| - 1], fileId, key)
    ensures FileEntered(sinks, EnterSink(mid, specs[|specs| - 1], fileId), specs, fileId, key)
  {
    hide Decimal, FirstSpec, NoSpec;
    var (front, n) := (specs[..|specs| - 1], |specs| - 1);
    SpecInFront(specs, fileId, key);
    forall j | FirstSpec(specs, fileId, key, j)
      ensures 0 <= j <= n && (j < n ==> FirstSpec(front, fileId, key, j))
      ensures j == n ==> NoSpec(front, fileId, key) && key == specs[n].name + Decimal(fileId)
    {
      FirstInFront(specs, fileId, key, j);
    }
    if !NoSpec(front, fileId, key) {
      var m := SomeFirst(front, fileId, key);
      assert key !in sinks ==> key in mid;
    }
  }

  lemma FirstInFront(specs: seq<SinkSpec>, fileId: nat, key: string, j: int)
    requires |specs| > 0 && FirstSpec(specs, fileId, key, j)
    ensures var (front, n) := (specs[..|specs| - 1], |specs| - 1);
            && 0 <= j <= n && (j < n ==> FirstSpec(front, fileId, key, j))
            && (j == n ==> NoSpec(front, fileId, key) && key == specs[n].name + Decimal(fileId))
  {
    hide Decimal;
  }

  lemma SpecInFront(specs: seq<SinkSpec>, fileId: nat, key: string)
    requires |specs| > 0
    ensures NoSpec(specs, fileId, key) ==>
              NoSpec(specs[..|specs| - 1], fileId, key) && key != specs[|specs| - 1].name + Decimal(fileId)
  {
    hide Decimal;
  }

  lemma {:induction false} SomeFirst(specs: seq<SinkSpec>, fileId: nat, key: string) returns (j: int)
    requires !NoSpec(specs, fileId, key)
    ensures FirstSpec(specs, fileId, key, j)
    decreases |specs|
  {
    hide Decimal;
    var (front, n) := (specs[..|specs| - 1], |specs| - 1);
    if NoSpec(front, fileId, key) {
      assert forall m :: 0 <= m < n ==> key != front[m].name + Decimal(fileId);
      j := n;
    } else {
      j := SomeFirst(front, fileId, key);
      assert forall m :: 0 <= m < j ==> specs[m] == front[m];
    }
  }

  // The sinks after some files are those of the files in turn.
  lemma SinksFileByFile(sinks: map<string, SinkInfo>, configs: seq<Config>, fileId: nat, i: nat, key: string)
    requires i < |configs|
    ensures FileEntered(SinksOf(sinks, configs[..i], fileId), SinksOf(sinks, configs[..i + 1], fileId),
                        configs[i].sinks, fileId + i + 1, key)
    ensures SinksOf(sinks, configs[..0], fileId) == sinks
  {
    hide FileEntered, EnterSinks;
    assert configs[..i + 1][..i] == configs[..i];
    SinksEntered(SinksOf(sinks, configs[..i], fileId), configs[i].sinks, fileId + i + 1, key);
  }

  // A known sink stays as it was entered, whatever files follow.
  lemma {:induction false} SinksStay(sinks: map<string, SinkInfo>, configs: seq<Config>, fileId: nat, i: nat, n: nat,
                                     key: string)
    requires i <= n <= |configs| && key in SinksOf(sinks, configs[..i], fileId)
    ensures key in SinksOf(sinks, configs[..n], fileId)
    ensures SinksOf(sinks, configs[..n], fileId)[key] == SinksOf(sinks, configs[..i], fileId)[key]
    decreases n - i
  {
    hide SinksOf;
    if i < n {
      SinksStay(sinks, configs, fileId, i, n - 1, key);
      SinksFileByFile(sinks, configs, fileId, n - 1, key);
    }
  }

  // Sink section j of file i is the first of its file with some key, and finds the key free.
  ghost predicate Enters(configs: seq<Config>, sinks: map<string, SinkInfo>, fileId: nat, i: int, j: int, key: string) {
    && 0 <= i < |configs| && 0 <= j < |configs[i].sinks|
    && FirstSpec(configs[i].sinks, fileId + i + 1, key, j)
    && key !in SinksOf(sinks, configs[..i], fileId)
  }

  // The filter of such a section is the filter of the sink in the end.
  lemma SinkFilterKept(sinks: map<string, SinkInfo>, configs: seq<Config>, fileId: nat, i: int, j: int, key: string)
    requires Enters(configs, sinks, fileId, i, j, key)
    ensures var after := SinksOf(sinks, configs, fileId);
            key in after && after[key].initFilter == configs[i].sinks[j].filter && forall r :: !after[key].redirect(r)
  {
    hide SinksOf, FirstSpec;
    SinksFileByFile(sinks, configs, fileId, i, key);
    SinksStay(sinks, configs, fileId, i + 1, |configs|, key);
    assert configs[..|configs|] == configs;
  }

  // The filter of the section is the filter of the logger; without one it lets everything through.
  ghost predicate AsDeclared(info: LoggerInfo, sec: Section) {
    if sec.filter.Some? then info.filter == sec.filter.value else forall r :: info.filter(r)
  }

  // What a declared logger filters, and what it is linked to in the end.
  lemma EntryIs(d: Declaration, name: string, ids: map<string, nat>, active: bool, keys: set<string>, key: string)
    ensures var info := WithLinks(EntryOf(d, name, ids, active), keys);
            && (d.section.filter.Some? ==> info.filter == d.section.filter.value)
            && (d.section.filter.None? ==> forall r :: info.filter(r))
            && info.fileId == d.fileId && info.active == active
            && (d.section.sinkNames.Some? ==> info.sinkNames == d.section.sinkNames.value)
            && (d.section.sinkNames.Some? ==>
                  (key in info.sinks <==> key in keys && Named(d.section.sinkNames.value, d.fileId, key)))
  {
    hide Linked, Named, Level;
    var info := EntryOf(d, name, ids, active);
    LinkedExactly(info.sinkNames, info.fileId, keys, key);
    assert info.sinks == [];
    assert [] + Linked(info.sinkNames, info.fileId, keys) == Linked(info.sinkNames, info.fileId, keys);
  }
}
