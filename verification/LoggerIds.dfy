/**
 Logger identifiers (log/LogManager.cpp GetId, log/LoggerInfo.h NextId).

 A logger name gets a base-256 label in 64 bits: the digit of its level is the serial
 number of the name on that level, the digits above it are those of its parent.  A sink
 selects a subtree with one half-open interval test.
 */
module LoggerIds {
  import opened Words
  import opened LoggerNames

  // 256 to the power 7 - level: one unit of the digit of that level.
  function Unit(level: nat): (u: nat)
    ensures u > 0
    decreases 8 - level
  {
    if level >= 7 then 1 else 256 * Unit(level + 1)
  }

  // NextId of LoggerInfo: the end of the interval, in 64-bit arithmetic.
  function NextId(id: nat, level: nat): nat {
    (id + Unit(level)) % UINT64
  }

  // is_in_range over [Id, NextId).
  predicate InRange(id: nat, level: nat, other: nat) {
    id <= other < NextId(id, level)
  }

  // The names that have an id, with the order in which the names of each level got theirs.
  datatype IdTable = IdTable(ids: map<string, nat>, order: map<string, nat>, counts: seq<nat>)

  function ParentId(ids: map<string, nat>, name: string): nat
    requires !DotFree(name) ==> Parent(name) in ids
  {
    if DotFree(name) then 0 else ids[Parent(name)]
  }

  // What GetId computes for the k-th name of a level.
  function NewId(k: nat, level: nat, parentId: nat): (id: nat)
    ensures id < UINT64
  {
    (k % UINT32 * Unit(level) + parentId) % UINT64
  }

  ghost predicate EntryOk(t: IdTable, n: string)
    requires n in t.ids && n in t.order && |t.counts| == 8
  {
    && Level(n) < 8
    && (!DotFree(n) ==> Parent(n) in t.ids)
    && 1 <= t.order[n] <= t.counts[Level(n)]
    && t.ids[n] == NewId(t.order[n], Level(n), ParentId(t.ids, n))
  }

  ghost predicate Holds(t: IdTable, n: string, level: nat, k: nat) {
    n in t.order && Level(n) == level && t.order[n] == k
  }

  // Some name was the k-th of its level.
  ghost predicate Assigned(t: IdTable, level: nat, k: nat) {
    exists n :: Holds(t, n, level, k)
  }

  // The invariant of every table built by GetId, without any bound on the number of names.
  ghost predicate TableOk(t: IdTable) {
    && |t.counts| == 8
    && t.ids.Keys == t.order.Keys
    && (forall n :: n in t.ids ==> EntryOk(t, n))
    && (forall n, m :: n in t.ids && m in t.ids && Level(n) == Level(m) && t.order[n] == t.order[m] ==> n == m)
    && (forall l, k :: 0 <= l < 8 && 1 <= k <= t.counts[l] ==> Assigned(t, l, k))
  }

  // At most 254 names on the top level and at most 255 on every other.
  predicate WithinBudget(counts: seq<nat>)
    requires |counts| == 8
  {
    counts[0] <= 254 && forall l :: 1 <= l < 8 ==> counts[l] <= 255
  }

  // The interval test decides ancestry for all names of the table.
  ghost predicate IntervalsDecideAncestry(t: IdTable)
    requires TableOk(t)
  {
    forall x, y :: x in t.ids && y in t.ids ==>
      (InRange(t.ids[x], Level(x), t.ids[y]) <==> AncestorOrSelf(x, y))
  }

  // ----- Adding one name -----

  function AddName(t: IdTable, name: string): IdTable
    requires |t.counts| == 8 && Level(name) < 8
    requires !DotFree(name) ==> Parent(name) in t.ids
  {
    var l := Level(name);
    var k := t.counts[l] + 1;
    IdTable(t.ids[name := NewId(k, l, ParentId(t.ids, name))], t.order[name := k], t.counts[l := k])
  }

  lemma AddNameEntry(t: IdTable, name: string, n: string)
    requires TableOk(t) && name !in t.ids && Level(name) < 8
    requires !DotFree(name) ==> Parent(name) in t.ids
    requires n == name || n in t.ids
    ensures EntryOk(AddName(t, name), n)
  {
    hide NewId, Level, Parent, Assigned;
    if n != name {
      assert EntryOk(t, n);
      OldEntry(t, name, n);
    } else {
      hide TableOk;
      ParentShorter(name);
    }
  }

  lemma OldEntry(t: IdTable, name: string, n: string)
    requires n in t.ids && n in t.order && |t.counts| == 8 && EntryOk(t, n) && name !in t.ids && Level(name) < 8
    requires !DotFree(name) ==> Parent(name) in t.ids
    ensures EntryOk(AddName(t, name), n)
  {
    hide NewId, Level, Parent, DotFree;
  }

  lemma ParentShorter(name: string)
    ensures !DotFree(name) ==> Parent(name) != name
  {
    assert !DotFree(name) ==> |Parent(name)| < |name|;
  }

  lemma AddNameAssigned(t: IdTable, name: string, l: nat, k: nat)
    requires TableOk(t) && name !in t.ids && Level(name) < 8
    requires !DotFree(name) ==> Parent(name) in t.ids
    requires l < 8 && 1 <= k <= AddName(t, name).counts[l]
    ensures Assigned(AddName(t, name), l, k)
  {
    hide NewId, Level, Parent;
    var t' := AddName(t, name);
    if l == Level(name) && k == t'.counts[l] {
      assert Holds(t', name, l, k);
    } else {
      assert Assigned(t, l, k);
      var n :| Holds(t, n, l, k);
      assert Holds(t', n, l, k);
    }
  }

  lemma AddNameOk(t: IdTable, name: string)
    requires TableOk(t) && name !in t.ids && Level(name) < 8
    requires !DotFree(name) ==> Parent(name) in t.ids
    ensures TableOk(AddName(t, name))
  {
    hide NewId, Level, Parent, Assigned;
    var t' := AddName(t, name);
    forall n | n in t'.ids
      ensures EntryOk(t', n)
    {
      AddNameEntry(t, name, n);
    }
    forall l, k | 0 <= l < 8 && 1 <= k <= t'.counts[l]
      ensures Assigned(t', l, k)
    {
      AddNameAssigned(t, name, l, k);
    }
    forall n, m | n in t'.ids && m in t'.ids && Level(n) == Level(m) && t'.order[n] == t'.order[m]
      ensures n == m
    {
      assert n in t.ids ==> EntryOk(t, n);
      assert m in t.ids ==> EntryOk(t, m);
    }
  }

  // ----- Intervals within the budget -----

  lemma {:induction false} UnitBounds(level: nat)
    requires level < 8
    ensures 256 * Unit(level) <= UINT64
    ensures 255 * Unit(level) < UINT64 && 256 * Unit(0) == UINT64
    ensures level > 0 ==> Unit(level - 1) == 256 * Unit(level)
    decreases level
  {
    assert Unit(0) == 0x100_0000_0000_0000 by {
      assert Unit(6) == 0x100;
      assert Unit(4) == 0x100_0000;
      assert Unit(2) == 0x100_0000_0000;
    }
    if level > 0 {
      UnitBounds(level - 1);
    }
  }

  lemma DigitBounds(k: nat, u: nat, max: nat)
    requires 1 <= k <= max
    ensures u <= k * u <= max * u
  {}

  lemma SmallId(k: nat, level: nat, parentId: nat)
    requires k < UINT32 && k * Unit(level) + parentId < UINT64
    ensures NewId(k, level, parentId) == k * Unit(level) + parentId
  {}

  // An id is its digit plus the parent's id, its interval does not wrap, and it lies within
  // the parent's interval.
  lemma {:induction false} Nested(t: IdTable, n: string)
    requires TableOk(t) && WithinBudget(t.counts) && n in t.ids
    ensures t.ids[n] == t.order[n] * Unit(Level(n)) + ParentId(t.ids, n)
    ensures t.ids[n] + Unit(Level(n)) < UINT64
    ensures !DotFree(n) ==>
              var p := Parent(n);
              t.ids[p] < t.ids[n] && t.ids[n] + Unit(Level(n)) <= t.ids[p] + Unit(Level(p))
    decreases |n|
  {
    assert EntryOk(t, n);
    var l, k := Level(n), t.order[n];
    LevelZero(n);
    UnitBounds(l);
    hide Unit;
    if DotFree(n) {
      DigitBounds(k, Unit(l), 254);
    } else {
      ParentLevel(n);
      DigitBounds(k, Unit(l), 255);
      Nested(t, Parent(n));
    }
    SmallId(k, l, ParentId(t.ids, n));
  }

  // The interval of a name lies within that of each ancestor.
  lemma {:induction false} NestedUpTo(t: IdTable, n: string, l: nat)
    requires TableOk(t) && WithinBudget(t.counts) && n in t.ids && l <= Level(n)
    ensures var a := UpTo(n, l);
            && a in t.ids && Level(a) == l
            && t.ids[a] <= t.ids[n] && (l < Level(n) ==> t.ids[a] < t.ids[n])
            && t.ids[n] + Unit(Level(n)) <= t.ids[a] + Unit(l)
    decreases |n|
  {
    assert EntryOk(t, n);
    if l < Level(n) {
      LevelZero(n);
      ParentLevel(n);
      Nested(t, n);
      NestedUpTo(t, Parent(n), l);
    }
  }

  // Every id has a top digit of at least one.
  lemma TopDigit(t: IdTable, n: string)
    requires TableOk(t) && WithinBudget(t.counts) && n in t.ids
    ensures t.ids[n] >= Unit(0) && NextId(0, 0) == Unit(0)
  {
    hide Unit, Level, EntryOk, TableOk, WithinBudget;
    NestedUpTo(t, n, 0);
    TopId(t, UpTo(n, 0));
    UnitBounds(0);
  }

  lemma TopId(t: IdTable, a: string)
    requires TableOk(t) && WithinBudget(t.counts) && a in t.ids && Level(a) == 0
    ensures t.ids[a] >= Unit(0)
  {
    assert EntryOk(t, a);
    hide Unit, Level, TableOk, WithinBudget, NewId, Parent, DotFree;
    Nested(t, a);
    DigitBounds(t.order[a], Unit(0), t.order[a]);
  }

  // Different names of one level have disjoint intervals.
  lemma {:induction false} Disjoint(t: IdTable, x: string, y: string)
    requires TableOk(t) && WithinBudget(t.counts) && x in t.ids && y in t.ids
    requires Level(x) == Level(y) && x != y
    ensures var u := Unit(Level(x));
            t.ids[x] + u <= t.ids[y] || t.ids[y] + u <= t.ids[x]
    decreases |x|
  {
    hide Unit;
    Nested(t, x);
    Nested(t, y);
    LevelZero(x);
    LevelZero(y);
    var u := Unit(Level(x));
    if DotFree(x) || Parent(x) == Parent(y) {
      SeparateDigits(t.order[x], t.order[y], u);
    } else {
      assert EntryOk(t, x) && EntryOk(t, y);
      ParentLevel(x);
      ParentLevel(y);
      Disjoint(t, Parent(x), Parent(y));
    }
  }

  lemma SeparateDigits(j: nat, k: nat, u: nat)
    requires j != k
    ensures j * u + u <= k * u || k * u + u <= j * u
  {
    if j < k {
      assert (j + 1) * u <= k * u;
    } else {
      assert (k + 1) * u <= j * u;
    }
  }

  lemma SmallNextId(id: nat, level: nat)
    requires id + Unit(level) < UINT64
    ensures NextId(id, level) == id + Unit(level)
  {
    hide Unit;
  }

  lemma NoWrap(t: IdTable, n: string)
    requires TableOk(t) && WithinBudget(t.counts) && n in t.ids
    ensures NextId(t.ids[n], Level(n)) == t.ids[n] + Unit(Level(n))
  {
    hide Unit, NextId, TableOk;
    Nested(t, n);
    SmallNextId(t.ids[n], Level(n));
  }

  lemma IntervalFromAbove(t: IdTable, x: string, y: string)
    requires TableOk(t) && WithinBudget(t.counts) && x in t.ids && y in t.ids
    requires Level(x) <= Level(y)
    ensures InRange(t.ids[x], Level(x), t.ids[y]) <==> UpTo(y, Level(x)) == x
    ensures t.ids[x] == t.ids[y] ==> x == y
  {
    NoWrap(t, x);
    NestedUpTo(t, y, Level(x));
    var a := UpTo(y, Level(x));
    if a != x { Disjoint(t, a, x); }
    hide NextId, Unit, TableOk;
  }

  lemma NoIntervalFromBelow(t: IdTable, x: string, y: string)
    requires TableOk(t) && WithinBudget(t.counts) && x in t.ids && y in t.ids
    requires Level(x) > Level(y)
    ensures !InRange(t.ids[x], Level(x), t.ids[y]) && t.ids[x] != t.ids[y]
  {
    NoWrap(t, x);
    NestedUpTo(t, x, Level(y));
    var a := UpTo(x, Level(y));
    if a != y { Disjoint(t, a, y); }
    hide NextId, Unit, TableOk;
  }

  lemma IntervalIsAncestry(t: IdTable, x: string, y: string)
    requires TableOk(t) && WithinBudget(t.counts) && x in t.ids && y in t.ids
    ensures InRange(t.ids[x], Level(x), t.ids[y]) <==> AncestorOrSelf(x, y)
    ensures t.ids[x] == t.ids[y] ==> x == y
  {
    hide InRange, TableOk, Level, UpTo, AncestorOrSelf;
    AncestorAtLevel(x, y);
    if Level(x) <= Level(y) {
      IntervalFromAbove(t, x, y);
    } else {
      NoIntervalFromBelow(t, x, y);
    }
  }

  // ----- The budget is exact -----

  lemma OverBudgetBelow(t: IdTable, l: nat)
    requires TableOk(t) && 1 <= l < 8 && t.counts[l] >= 256
    ensures !IntervalsDecideAncestry(t)
  {
    assert Assigned(t, l, 256);
    var n :| Holds(t, n, l, 256);
    assert EntryOk(t, n);
    LevelZero(n);
    ParentLevel(n);
    AncestorViaParent(Parent(n), n);
    CarriedId(l, t.ids[Parent(n)]);
    hide Unit, NewId, NextId;
    assert t.ids[n] == NextId(t.ids[Parent(n)], l - 1);
    assert !InRange(t.ids[Parent(n)], Level(Parent(n)), t.ids[n]);
  }

  // The 256th name of a level carries into the parent's digit: its id is the parent's end.
  lemma CarriedId(l: nat, parentId: nat)
    requires 1 <= l < 8
    ensures NewId(256, l, parentId) == NextId(parentId, l - 1)
  {
    UnitBounds(l);
    hide Unit;
  }

  lemma TopEnd()
    ensures NextId(NewId(255, 0, 0), 0) == 0
  {
    UnitBounds(0);
    hide Unit;
  }

  lemma OverBudgetTop(t: IdTable)
    requires TableOk(t) && t.counts[0] >= 255
    ensures !IntervalsDecideAncestry(t)
  {
    assert Assigned(t, 0, 255);
    var n :| Holds(t, n, 0, 255);
    assert EntryOk(t, n);
    LevelZero(n);
    TopEnd();
    hide Unit, NewId, NextId;
    assert NextId(t.ids[n], 0) == 0;
    assert !InRange(t.ids[n], Level(n), t.ids[n]);
  }

  // In every table that GetId can build, the interval test agrees with the ancestor relation
  // on all pairs of names exactly when no level has more names than a digit can tell apart.
  lemma BudgetIsExact(t: IdTable)
    requires TableOk(t)
    ensures IntervalsDecideAncestry(t) <==> WithinBudget(t.counts)
  {
    if WithinBudget(t.counts) {
      forall x, y | x in t.ids && y in t.ids
        ensures InRange(t.ids[x], Level(x), t.ids[y]) <==> AncestorOrSelf(x, y)
      {
        IntervalIsAncestry(t, x, y);
      }
    } else if t.counts[0] >= 255 {
      OverBudgetTop(t);
    } else {
      var l :| 1 <= l < 8 && t.counts[l] > 255;
      OverBudgetBelow(t, l);
    }
  }
}
