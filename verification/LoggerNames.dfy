/**
 Dotted logger names: levels, parents and the "is a dotted ancestor of" relation.
 */
module LoggerNames {

  // x is y, or y continues x after a dot.
  predicate AncestorOrSelf(x: string, y: string) {
    x == y || x + "." <= y
  }

  predicate DotFree(s: string) {
    '.' !in s
  }

  // The index of the last dot, or -1: find_last_of('.') over the whole string.
  function LastDot(s: string): (d: int)
    ensures -1 <= d < |s|
    ensures d >= 0 ==> s[d] == '.'
    ensures forall i :: d < i < |s| ==> s[i] != '.'
  {
    if s == "" then -1
    else if s[|s| - 1] == '.' then |s| - 1
    else LastDot(s[..|s| - 1])
  }

  // The number of dots.
  function Level(s: string): nat {
    if s == "" then 0
    else Level(s[..|s| - 1]) + (if s[|s| - 1] == '.' then 1 else 0)
  }

  function Parent(s: string): string
    requires !DotFree(s)
  {
    s[..LastDot(s)]
  }

  lemma {:induction false} LevelAppend(s: string, t: string)
    ensures Level(s + t) == Level(s) + Level(t)
    decreases |t|
  {
    if t == "" {
      assert s + t == s;
    } else {
      assert (s + t)[..|s + t| - 1] == s + t[..|t| - 1];
      LevelAppend(s, t[..|t| - 1]);
    }
  }

  lemma {:induction false} LevelZero(s: string)
    ensures Level(s) == 0 <==> DotFree(s)
    decreases |s|
  {
    if s != "" {
      LevelZero(s[..|s| - 1]);
      assert s == s[..|s| - 1] + [s[|s| - 1]];
    }
  }

  lemma ParentLevel(s: string)
    requires !DotFree(s)
    ensures Level(s) == Level(Parent(s)) + 1
  {
    var d := LastDot(s);
    assert s == s[..d] + "." + s[d + 1..];
    LevelAppend(s[..d] + ".", s[d + 1..]);
    LevelAppend(s[..d], ".");
    LevelZero(s[d + 1..]);
    assert Level(".") == 1;
  }

  // Adding one dot-free component.
  lemma ChildName(p: string, c: string)
    requires DotFree(c)
    ensures var s := p + "." + c;
            !DotFree(s) && Parent(s) == p && Level(s) == Level(p) + 1
  {
    var s := p + "." + c;
    assert s[|p|] == '.';
    assert LastDot(s) == |p|;
    ParentLevel(s);
  }

  // Ancestry is reached by going up one parent at a time.
  lemma AncestorViaParent(x: string, y: string)
    requires !DotFree(y)
    ensures AncestorOrSelf(x, y) <==> x == y || AncestorOrSelf(x, Parent(y))
  {
    var d := LastDot(y);
    var p := Parent(y);
    assert y == p + "." + y[d + 1..];
    if x != y && x + "." <= y {
      assert y[|x|] == '.';
      assert |x| <= d;
      assert x == y[..|x|];
      if |x| < d {
        assert p[..|x| + 1] == y[..|x| + 1];
      }
    }
    if AncestorOrSelf(x, p) {
      assert x + "." <= p + ".";
    }
  }

  // The ancestor of s at level l.
  function UpTo(s: string, l: nat): string
    requires l <= Level(s)
    decreases |s|
  {
    if l == Level(s) then s else
      LevelZero(s);
      ParentLevel(s);
      UpTo(Parent(s), l)
  }

  lemma ContinuationHasDot(x: string, y: string)
    ensures x + "." <= y ==> !DotFree(y)
  {
    if x + "." <= y {
      assert y[|x|] == '.';
    }
  }

  // Ancestors are told apart by level.
  lemma {:induction false} AncestorAtLevel(x: string, y: string)
    ensures AncestorOrSelf(x, y) <==> Level(x) <= Level(y) && UpTo(y, Level(x)) == x
    decreases |y|
  {
    LevelZero(y);
    if DotFree(y) {
      ContinuationHasDot(x, y);
      LevelZero(x);
    } else {
      ParentLevel(y);
      AncestorViaParent(x, y);
      AncestorAtLevel(x, Parent(y));
      if x != y && Level(x) == Level(y) {
        assert !AncestorOrSelf(x, Parent(y));
      }
    }
  }
}
