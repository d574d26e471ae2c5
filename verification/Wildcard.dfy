/**
 Wildcard patterns as regular expressions (common/FileHandler.cpp): the in-place replacement
 loop, the fifteen rewriting passes of Wildcard2Regex, and what the resulting regular
 expression accepts when it is searched for in a path.
 */
module Wildcard {
  import opened Collections
  import opened DecimalText

  // ----- Replacing every occurrence -----

  // Leftmost occurrences that do not overlap, from left to right.
  function ReplaceAll(s: string, from: string, to: string): string
    requires from != ""
    decreases |s|
  {
    if |s| < |from| then s
    else if from <= s then to + ReplaceAll(s[|from|..], from, to)
    else [s[0]] + ReplaceAll(s[1..], from, to)
  }

  // The search string stands at position q.
  predicate OccursAt(s: string, from: string, q: nat) {
    q + |from| <= |s| && from <= s[q..]
  }

  // std::string::find: the first occurrence at or after pos, or -1 for npos.
  function Find(s: string, from: string, pos: nat): (k: int)
    requires pos <= |s|
    ensures k == -1 || (pos <= k && OccursAt(s, from, k))
    ensures forall q :: pos <= q < (if k == -1 then |s| else k) ==> !OccursAt(s, from, q)
    decreases |s| - pos
  {
    if OccursAt(s, from, pos) then pos
    else if pos == |s| then -1
    else Find(s, from, pos + 1)
  }

  // Up to the next occurrence nothing changes.
  lemma {:induction false} SkipTo(s: string, from: string, to: string, pos: nat, k: nat)
    requires from != "" && pos <= k <= |s|
    requires forall q :: pos <= q < k ==> !OccursAt(s, from, q)
    ensures ReplaceAll(s[pos..], from, to) == s[pos..k] + ReplaceAll(s[k..], from, to)
    decreases k - pos
  {
    if pos == k {
      assert s[pos..k] == "";
    } else {
      ReplaceLater(s, from, to, pos);
      SkipTo(s, from, to, pos + 1, k);
      hide ReplaceAll;
      assert s[pos..k] == [s[pos]] + s[pos + 1..k];
      Associate([s[pos]], s[pos + 1..k], ReplaceAll(s[k..], from, to));
    }
  }

  lemma ReplaceLater(s: string, from: string, to: string, pos: nat)
    requires from != "" && pos < |s| && !OccursAt(s, from, pos)
    ensures ReplaceAll(s[pos..], from, to) == [s[pos]] + ReplaceAll(s[pos + 1..], from, to)
  {
    assert s[pos..][1..] == s[pos + 1..] && s[pos..] == [s[pos]] + s[pos + 1..];
  }

  lemma ReplaceHere(s: string, from: string, to: string, pos: nat)
    requires from != "" && OccursAt(s, from, pos)
    ensures ReplaceAll(s[pos..], from, to) == to + ReplaceAll(s[pos + |from|..], from, to)
  {
    assert s[pos..][|from|..] == s[pos + |from|..];
  }

  lemma Associate(a: string, b: string, c: string)
    ensures a + (b + c) == (a + b) + c
  {}

  // One round of the loop: the text up to k and the replacement are final.
  lemma ReplaceOnce(s: string, from: string, to: string, pos: nat, k: nat)
    requires from != "" && pos <= k && OccursAt(s, from, k)
    requires forall q :: pos <= q < k ==> !OccursAt(s, from, q)
    ensures var rest := s[k + |from|..];
            var s' := s[..k] + to + rest;
            && s'[k + |to|..] == rest
            && s[..pos] + ReplaceAll(s[pos..], from, to) == s'[..k + |to|] + ReplaceAll(s'[k + |to|..], from, to)
  {
    hide ReplaceAll, OccursAt;
    OccursInside(s, from, k);
    SkipTo(s, from, to, pos, k);
    ReplaceHere(s, from, to, k);
    var (rest, r) := (s[k + |from|..], ReplaceAll(s[k + |from|..], from, to));
    var s' := s[..k] + to + rest;
    assert s'[..k + |to|] == s[..k] + to && s'[k + |to|..] == rest;
    Associate(s[..pos], s[pos..k], to + r);
    assert s[..pos] + s[pos..k] == s[..k];
    Associate(s[..k], to, r);
  }

  lemma ReplaceNone(s: string, from: string, to: string, pos: nat)
    requires from != "" && pos <= |s| && forall q :: pos <= q < |s| ==> !OccursAt(s, from, q)
    ensures s[..pos] + ReplaceAll(s[pos..], from, to) == s
  {
    SkipTo(s, from, to, pos, |s|);
    assert s[|s|..] == "" && ReplaceAll("", from, to) == "";
    hide ReplaceAll;
    assert s[pos..|s|] + "" == s[pos..];
    assert s[..pos] + s[pos..] == s;
  }

  // The loop of SReplaceVisit, which is also what boost::replace_all computes.
  method ReplaceLoop(text: string, from: string, to: string) returns (line: string)
    requires from != ""
    ensures line == ReplaceAll(text, from, to)
  {
    hide Find, ReplaceAll, OccursAt;
    line := text;
    var pos := 0;
    var k := Find(line, from, 0);
    assert line[0..] == line && line[..0] == "";
    assert line[..0] + ReplaceAll(line[0..], from, to) == ReplaceAll(text, from, to);
    while k != -1
      invariant 0 <= pos <= |line| && k == Find(line, from, pos)
      invariant line[..pos] + ReplaceAll(line[pos..], from, to) == ReplaceAll(text, from, to)
      decreases |line| - pos
    {
      OccursInside(line, from, k);
      ReplaceOnce(line, from, to, pos, k);
      line := line[..k] + to + line[k + |from|..];
      pos := k + |to|;
      k := Find(line, from, pos);
    }
    ReplaceNone(line, from, to, pos);
  }

  lemma OccursInside(s: string, from: string, k: nat)
    requires OccursAt(s, from, k)
    ensures k + |from| <= |s|
  {}

  // The text and the position after some rounds of the loop with an empty search string: each
  // round puts the replacement where the last match was found.
  function EmptyRounds(line: string, to: string, rounds: nat): (r: (string, nat))
    ensures r.1 <= |r.0|
  {
    if rounds == 0 then (line, 0)
    else
      var (line', pos) := EmptyRounds(line, to, rounds - 1);
      (line'[..pos] + to + line'[pos..], pos + |to|)
  }

  function Copies(to: string, n: nat): string {
    if n == 0 then "" else Copies(to, n - 1) + to
  }

  // With an empty search string no number of rounds ends the loop: the next match is always
  // found at once, and every round has put one more copy in front of the line.
  lemma {:induction false} EmptyNeverEnds(line: string, to: string, rounds: nat)
    ensures EmptyRounds(line, to, rounds) == (Copies(to, rounds) + line, |Copies(to, rounds)|)
    ensures var (line', pos) := EmptyRounds(line, to, rounds); Find(line', "", pos) == pos
  {
    if rounds == 0 {
      assert "" + line == line;
    } else {
      EmptyNeverEnds(line, to, rounds - 1);
      var front := Copies(to, rounds - 1);
      assert (front + line)[..|front|] == front && (front + line)[|front|..] == line;
    }
  }

  // ----- One map per character -----

  function FlatMap(f: char -> string, s: string): string {
    if s == "" then "" else f(s[0]) + FlatMap(f, s[1..])
  }

  // A character of the set is preceded by a backslash.
  function Escape(specials: set<char>): char -> string {
    c => if c in specials then ['\\', c] else [c]
  }

  lemma {:induction false} ReplaceCharAppend(s: string, t: string, c: char, to: string)
    ensures ReplaceAll(s + t, [c], to) == ReplaceAll(s, [c], to) + ReplaceAll(t, [c], to)
    decreases |s|
  {
    if s == "" {
      assert s + t == t;
    } else {
      assert (s + t)[1..] == s[1..] + t;
      ReplaceCharAppend(s[1..], t, c, to);
    }
  }

  lemma ReplaceChar(x: char, c: char, to: string)
    ensures ReplaceAll([x], [c], to) == if x == c then to else [x]
  {
    assert [x][1..] == "" && [x][0] == x && [c][0] == c;
    assert [c] <= [x] ==> [c][0] == [x][0];
    assert ReplaceAll("", [c], to) == "";
  }

  // Escaping one more character after the backslash itself has been escaped.
  lemma {:induction false} EscapeOneMore(s: string, specials: set<char>, c: char)
    requires c !in specials && (specials == {} || ('\\' in specials && c != '\\'))
    requires specials == {} ==> c == '\\'
    ensures ReplaceAll(FlatMap(Escape(specials), s), [c], ['\\', c]) == FlatMap(Escape(specials + {c}), s)
    decreases |s|
  {
    if s != "" {
      var (x, f) := (s[0], Escape(specials));
      EscapeOneMore(s[1..], specials, c);
      ReplaceCharAppend(f(x), FlatMap(f, s[1..]), c, ['\\', c]);
      ReplaceChar(x, c, ['\\', c]);
      if x in specials {
        assert f(x) == ['\\'] + [x];
        ReplaceCharAppend(['\\'], [x], c, ['\\', c]);
        ReplaceChar('\\', c, ['\\', c]);
      }
    }
  }

  const SPECIALS: seq<char> := ['\\', '^', '.', '$', '|', '(', ')', '[', ']', '*', '+', '?', '/']

  // The translation of one character.
  function Piece(c: char): string {
    if c == '?' then "."
    else if c == '*' then ".*"
    else if c in SPECIALS then ['\\', c]
    else [c]
  }

  // Every syntax character and the slash are escaped, the two wildcards become expressions, and
  // any other character stands for itself.
  lemma PieceIs(c: char)
    ensures Piece(c) ==
            if c == '?' then "."
            else if c == '*' then ".*"
            else if c == '\\' || c == '^' || c == '.' || c == '$' || c == '|' || c == '(' || c == ')'
                    || c == '[' || c == ']' || c == '+' || c == '/'
            then ['\\', c]
            else [c]
  {}

  // The regular expression that a pattern should become.
  function Translate(p: string): string {
    FlatMap(Piece, p) + "$"
  }

  // ----- The two passes over escaped pairs -----

  // The translation after the pass for '?' and before the pass for '*'.
  function HalfPiece(c: char): string {
    if c == '?' then "." else if c in SPECIALS then ['\\', c] else [c]
  }

  lemma SkipOne(x: char, rest: string, from: string, to: string)
    requires |from| == 2 && !(from <= [x] + rest)
    ensures ReplaceAll([x] + rest, from, to) == [x] + ReplaceAll(rest, from, to)
  {
    assert ([x] + rest)[1..] == rest;
  }

  lemma StartsWithPair(t: string, from: string)
    requires |from| == 2
    ensures from <= t <==> |t| >= 2 && t[0] == from[0] && t[1] == from[1]
  {
    if |t| >= 2 && t[0] == from[0] && t[1] == from[1] {
      assert t[..2] == from;
    }
  }

  lemma TakePair(x: char, rest: string, to: string)
    ensures ReplaceAll(['\\', x] + rest, ['\\', x], to) == to + ReplaceAll(rest, ['\\', x], to)
  {
    assert (['\\', x] + rest)[2..] == rest;
  }

  // No pair is made of the end of one piece and the start of the next, because no piece
  // starts with x; only the escaped x itself is replaced.
  lemma ReplacePairInPiece(piece: string, rest: string, x: char, to: string)
    requires x != '\\' && (rest == "" || rest[0] != x)
    requires |piece| == 1 || (|piece| == 2 && piece[0] == '\\' && piece[1] != x)
    ensures ReplaceAll(piece + rest, ['\\', x], to) == piece + ReplaceAll(rest, ['\\', x], to)
  {
    hide ReplaceAll;
    var from := ['\\', x];
    var last := piece[|piece| - 1];
    var tail := [last] + rest;
    StartsWithPair(tail, from);
    SkipOne(last, rest, from, to);
    if |piece| == 2 {
      assert piece + rest == ['\\'] + tail;
      StartsWithPair(piece + rest, from);
      SkipOne('\\', tail, from, to);
    } else {
      assert piece + rest == tail;
    }
  }

  lemma {:induction false} QuestionPass(p: string)
    ensures ReplaceAll(FlatMap(Escape(SetOf(SPECIALS)), p), "\\?", ".") == FlatMap(HalfPiece, p)
    ensures var e := FlatMap(Escape(SetOf(SPECIALS)), p); e == "" || e[0] != '?'
    decreases |p|
  {
    if p != "" {
      var (c, f) := (p[0], Escape(SetOf(SPECIALS)));
      QuestionPass(p[1..]);
      var rest := FlatMap(f, p[1..]);
      assert '?' in SPECIALS by { assert SPECIALS[11] == '?'; }
      assert f(c) == if c in SPECIALS then ['\\', c] else [c];
      if c == '?' {
        TakePair('?', rest, ".");
      } else {
        ReplacePairInPiece(f(c), rest, '?', ".");
      }
    }
  }

  lemma {:induction false} StarPass(p: string)
    ensures ReplaceAll(FlatMap(HalfPiece, p), "\\*", ".*") == FlatMap(Piece, p)
    ensures var e := FlatMap(HalfPiece, p); e == "" || e[0] != '*'
    decreases |p|
  {
    if p != "" {
      var c := p[0];
      StarPass(p[1..]);
      var rest := FlatMap(HalfPiece, p[1..]);
      assert '*' in SPECIALS by { assert SPECIALS[9] == '*'; }
      if c == '*' {
        TakePair('*', rest, ".*");
      } else {
        ReplacePairInPiece(HalfPiece(c), rest, '*', ".*");
      }
    }
  }

  lemma {:induction false} NothingEscaped(s: string)
    ensures FlatMap(Escape({}), s) == s
    decreases |s|
  {
    if s != "" {
      NothingEscaped(s[1..]);
      assert s == [s[0]] + s[1..];
    }
  }

  // The text after the passes for the first k special characters.
  function Escaped(s: string, k: nat): string
    requires k <= |SPECIALS|
  {
    FlatMap(Escape(SetOf(SPECIALS[..k])), s)
  }

  lemma EscapeNext(s: string, k: nat)
    requires k < |SPECIALS|
    ensures ReplaceAll(Escaped(s, k), [SPECIALS[k]], ['\\', SPECIALS[k]]) == Escaped(s, k + 1)
  {
    var c := SPECIALS[k];
    assert c !in SPECIALS[..k] by {
      if i :| 0 <= i < k && SPECIALS[..k][i] == c { SpecialsDiffer(i, k); }
    }
    if k > 0 {
      assert SPECIALS[..k][0] == '\\';
      SpecialsDiffer(0, k);
    } else {
      assert SetOf(SPECIALS[..0]) == {};
    }
    EscapeOneMore(s, SetOf(SPECIALS[..k]), c);
    assert SPECIALS[..k + 1] == SPECIALS[..k] + [c];
    assert SetOf(SPECIALS[..k + 1]) == SetOf(SPECIALS[..k]) + {c};
  }

  lemma SpecialsDiffer(i: nat, j: nat)
    requires i < j < |SPECIALS|
    ensures SPECIALS[i] != SPECIALS[j]
  {}

  // The fifteen passes of the source, in its order.
  method Wildcard2Regex(pattern: string) returns (w: string)
    ensures w == Translate(pattern)
  {
    hide ReplaceAll, FlatMap, Escaped;
    w := pattern;
    EscapeNone(pattern);
    EscapeNext(pattern, 0);
    w := ReplaceLoop(w, "\\", "\\\\");
    EscapeNext(pattern, 1);
    w := ReplaceLoop(w, "^", "\\^");
    EscapeNext(pattern, 2);
    w := ReplaceLoop(w, ".", "\\.");
    EscapeNext(pattern, 3);
    w := ReplaceLoop(w, "$", "\\$");
    EscapeNext(pattern, 4);
    w := ReplaceLoop(w, "|", "\\|");
    EscapeNext(pattern, 5);
    w := ReplaceLoop(w, "(", "\\(");
    EscapeNext(pattern, 6);
    w := ReplaceLoop(w, ")", "\\)");
    EscapeNext(pattern, 7);
    w := ReplaceLoop(w, "[", "\\[");
    EscapeNext(pattern, 8);
    w := ReplaceLoop(w, "]", "\\]");
    EscapeNext(pattern, 9);
    w := ReplaceLoop(w, "*", "\\*");
    EscapeNext(pattern, 10);
    w := ReplaceLoop(w, "+", "\\+");
    EscapeNext(pattern, 11);
    w := ReplaceLoop(w, "?", "\\?");
    EscapeNext(pattern, 12);
    w := ReplaceLoop(w, "/", "\\/");
    EscapedAll(pattern);
    QuestionPass(pattern);
    w := ReplaceLoop(w, "\\?", ".");
    StarPass(pattern);
    w := ReplaceLoop(w, "\\*", ".*");
    w := w + "$";
  }

  lemma EscapedAll(s: string)
    ensures Escaped(s, 13) == FlatMap(Escape(SetOf(SPECIALS)), s)
  {
    assert SPECIALS[..13] == SPECIALS;
  }

  lemma EscapeNone(s: string)
    ensures s == Escaped(s, 0)
  {
    NothingEscaped(s);
    assert SPECIALS[..0] == [] && SetOf(SPECIALS[..0]) == {};
  }

  // ----- Reading the regular expression -----

  datatype Atom = Literal(c: char) | AnyChar

  datatype Node = One(atom: Atom) | Star(atom: Atom) | Counted(atom: Atom, least: nat, most: Option<nat>) | EndOfLine

  predicate Brace(c: char) {
    c == '{' || c == '}'
  }

  // The other characters of section 15.10.1 of ECMA-262 that do not stand for themselves.
  predicate Syntax(c: char) {
    || c == '^' || c == '$' || c == '\\' || c == '.' || c == '*' || c == '+' || c == '?'
    || c == '(' || c == ')' || c == '[' || c == ']' || c == '|'
  }

  // The characters that a count is made of.
  predicate CountChar(c: char) {
    Brace(c) || IsDigit(c) || c == ','
  }

  // A quantifier of one character.
  predicate Quantifier(c: char) {
    c == '*' || c == '+' || c == '?'
  }

  predicate Punctuation(c: char) {
    !('a' <= c <= 'z' || 'A' <= c <= 'Z' || IsDigit(c))
  }

  // The number of digits at the start of a text.
  function Digits(r: string): (n: nat)
    ensures n <= |r| && AllDigits(r[..n]) && forall i :: 0 <= i < n ==> IsDigit(r[i])
  {
    if r != "" && IsDigit(r[0]) then 1 + Digits(r[1..]) else 0
  }

  // The bounds of a count and the number of its characters.
  datatype Bounds = Bounds(least: nat, most: Option<nat>, length: nat)

  // The end of a count after its comma.
  function ReadMost(e: string, least: nat): (q: Option<Bounds>)
    ensures q.Some? ==> 1 <= q.value.length <= |e|
    ensures q.Some? ==> forall i :: 0 <= i < q.value.length ==> CountChar(e[i])
    ensures q.Some? ==> q.value.most == None || q.value.least <= q.value.most.value
  {
    var m := Digits(e);
    if m == |e| || e[m] != '}' then None
    else if m == 0 then Some(Bounds(least, None, 1))
    else
      var most := Number(e[..m]);
      if least <= most then Some(Bounds(least, Some(most), m + 1)) else None
  }

  // The quantifiers {n}, {n,} and {n,m} of section 15.10.1 of ECMA-262, after the brace.
  function ReadLeast(d: string): (q: Option<Bounds>)
    ensures q.Some? ==> 2 <= q.value.length <= |d| && IsDigit(d[0])
    ensures q.Some? ==> forall i :: 0 <= i < q.value.length ==> CountChar(d[i])
    ensures q.Some? ==> q.value.most == None || q.value.least <= q.value.most.value
  {
    var n := Digits(d);
    if n == 0 || n == |d| then None
    else
      var least := Number(d[..n]);
      if d[n] == '}' then Some(Bounds(least, Some(least), n + 1))
      else if d[n] == ',' then Longer(ReadMost(d[n + 1..], least), n + 1)
      else None
  }

  function Longer(q: Option<Bounds>, k: nat): Option<Bounds> {
    if q == None then None else Some(q.value.(length := q.value.length + k))
  }

  function ReadCount(r: string): (q: Option<Bounds>)
    requires r != "" && r[0] == '{'
    ensures q.Some? ==> 3 <= q.value.length <= |r| && IsDigit(r[1])
    ensures q.Some? ==> forall i :: 0 <= i < q.value.length ==> CountChar(r[i])
    ensures q.Some? ==> q.value.most == None || q.value.least <= q.value.most.value
  {
    Longer(ReadLeast(r[1..]), 1)
  }

  // The first atom of a regular expression and its length, for the syntax used here: dots,
  // escaped punctuation and ordinary characters.  A brace where an atom should stand is an
  // error in ECMA-262; a lenient reader takes it as it is.
  function ParseAtom(r: string, lenient: bool): (a: Option<(Atom, nat)>)
    requires r != ""
    ensures a.Some? ==> 0 < a.value.1 <= |r|
  {
    if r[0] == '.' then Some((AnyChar, 1))
    else if r[0] == '\\' then
      if |r| >= 2 && Punctuation(r[1]) then Some((Literal(r[1]), 2)) else None
    else if Brace(r[0]) then if lenient then Some((Literal(r[0]), 1)) else None
    else if Syntax(r[0]) then None
    else Some((Literal(r[0]), 1))
  }

  // An atom may be followed by one '*' or one count; other quantifiers are not read.
  function Parse(r: string, lenient: bool): Option<seq<Node>>
    decreases |r|
  {
    if r == "" then Some([])
    else if r[0] == '$' then Then(EndOfLine, Parse(r[1..], lenient))
    else
      var a := ParseAtom(r, lenient);
      if a == None then None
      else
        var (atom, tail) := (a.value.0, r[a.value.1..]);
        if tail != "" && tail[0] == '*' then ThenAtom(Star(atom), tail[1..], Parse(tail[1..], lenient))
        else if tail != "" && tail[0] == '{' then
          var q := ReadCount(tail);
          if q == None then None
          else
            var rest := tail[q.value.length..];
            ThenAtom(Counted(atom, q.value.least, q.value.most), rest, Parse(rest, lenient))
        else ThenAtom(One(atom), tail, Parse(tail, lenient))
  }

  function Then(node: Node, rest: Option<seq<Node>>): Option<seq<Node>> {
    if rest.Some? then Some([node] + rest.value) else None
  }

  // No further quantifier may follow.
  function ThenAtom(node: Node, tail: string, rest: Option<seq<Node>>): Option<seq<Node>> {
    if tail != "" && Quantifier(tail[0]) then None else Then(node, rest)
  }

  function AtomOf(c: char): Atom {
    if c == '*' || c == '?' then AnyChar else Literal(c)
  }

  function NodeOf(c: char): Node {
    if c == '*' then Star(AnyChar) else One(AtomOf(c))
  }

  // The nodes a pattern stands for.
  function Nodes(p: string): seq<Node> {
    if p == "" then [EndOfLine] else [NodeOf(p[0])] + Nodes(p[1..])
  }

  predicate NoBraces(p: string) {
    '{' !in p && '}' !in p
  }

  // No brace is read as anything but itself: there is none, or the reader is lenient and no
  // opening brace follows a character that it could repeat.
  predicate Inert(p: string, lenient: bool) {
    if lenient then forall i :: 0 < i < |p| && p[i] == '{' ==> p[i - 1] == '*' else NoBraces(p)
  }

  lemma TranslateStep(p: string)
    requires p != ""
    ensures Translate(p) == Piece(p[0]) + Translate(p[1..])
  {}

  // No translation starts with a quantifier, and one starts with a brace only for a brace.
  lemma TranslateStart(p: string)
    ensures var t := Translate(p);
            && t != "" && !Quantifier(t[0])
            && (Brace(t[0]) <==> p != "" && Brace(p[0])) && (Brace(t[0]) ==> t[0] == p[0])
  {
    if p != "" {
      TranslateStep(p);
      assert SPECIALS[9] == '*' && SPECIALS[10] == '+' && SPECIALS[11] == '?';
      BracesNotSpecial();
    }
  }

  lemma BracesNotSpecial()
    ensures '{' !in SPECIALS && '}' !in SPECIALS
  {}

  lemma SpecialsArePunctuation(c: char)
    requires c in SPECIALS
    ensures Punctuation(c)
  {}

  // The piece of a character is read as an atom.
  lemma PieceAtom(c: char, rest: string, lenient: bool)
    requires c != '*'
    ensures var r := Piece(c) + rest;
            && r[0] != '$' && r[|Piece(c)|..] == rest
            && ParseAtom(r, lenient) == if Brace(c) && !lenient then None else Some((AtomOf(c), |Piece(c)|))
  {
    BracesNotSpecial();
    assert SPECIALS[3] == '$' && SPECIALS[0] == '\\' && SPECIALS[2] == '.';
    if c in SPECIALS {
      SpecialsArePunctuation(c);
    }
  }

  // How a piece and what follows it are read.
  lemma ParsePiece(c: char, rest: string, lenient: bool)
    requires rest != "" && !Quantifier(rest[0])
    ensures Parse(Piece(c) + rest, lenient) ==
            if c == '*' then Then(NodeOf(c), Parse(rest, lenient))
            else if Brace(c) && !lenient then None
            else if rest[0] != '{' then Then(NodeOf(c), Parse(rest, lenient))
            else
              var q := ReadCount(rest);
              if q == None then None
              else
                var after := rest[q.value.length..];
                ThenAtom(Counted(AtomOf(c), q.value.least, q.value.most), after, Parse(after, lenient))
  {
    var r := Piece(c) + rest;
    if c == '*' {
      assert r[1..] == "*" + rest && r[1..][1..] == rest;
      assert SPECIALS[3] == '$';
    } else {
      PieceAtom(c, rest, lenient);
      hide ParseAtom, Piece, ReadCount;
    }
  }

  lemma InertTail(p: string, lenient: bool)
    requires p != "" && (p[0] == '*' || |p| == 1 || p[1] != '{') && (lenient || !Brace(p[0]))
    ensures Inert(p, lenient) <==> Inert(p[1..], lenient)
  {
    if lenient {
      if Inert(p, lenient) {
        forall i | 0 < i < |p[1..]| && p[1..][i] == '{'
          ensures p[1..][i - 1] == '*'
        {
          assert p[i + 1] == '{' && p[1..][i - 1] == p[i];
        }
      }
      if Inert(p[1..], lenient) {
        forall i | 0 < i < |p| && p[i] == '{'
          ensures p[i - 1] == '*'
        {
          assert i > 1 ==> p[1..][i - 1] == '{' && p[1..][i - 2] == p[i - 1];
        }
      }
    } else {
      assert p == [p[0]] + p[1..];
    }
  }

  // The translation of a pattern whose braces are inert is read back node by node.
  lemma {:induction false} ParseTranslate(p: string, lenient: bool)
    requires Inert(p, lenient)
    ensures Parse(Translate(p), lenient) == Some(Nodes(p))
    decreases |p|
  {
    if p == "" {
      assert Translate(p) == "$" && "$"[1..] == "" && Parse("", lenient) == Some([]);
      var none: seq<Node> := [];
      assert [EndOfLine] + none == [EndOfLine];
    } else {
      assert lenient || !Brace(p[0]) by { assert p[0] in p; }
      InertTail(p, lenient);
      ParseTranslate(p[1..], lenient);
      TranslateStart(p[1..]);
      TranslateStep(p);
      hide FlatMap, Parse, Translate;
      ParsePiece(p[0], Translate(p[1..]), lenient);
    }
  }

  // ----- Searching -----

  predicate Fits(atom: Atom, c: char) {
    atom == AnyChar || atom == Literal(c)
  }

  // The end anchor holds at the end of the text and before a line break.
  predicate AtEndOfLine(s: string, j: nat)
    requires j <= |s|
  {
    j == |s| || s[j] == '\n'
  }

  // A count after one repetition.
  function OneLess(node: Node): Node
    requires node.Counted? && node.most != Some(0)
  {
    Counted(node.atom, if node.least == 0 then 0 else node.least - 1,
            if node.most == None then None else Some(node.most.value - 1))
  }

  // The nodes match the text from position i on.
  predicate MatchAt(nodes: seq<Node>, s: string, i: nat)
    requires i <= |s|
    decreases |nodes|, |s| - i
  {
    if nodes == [] then true
    else
      match nodes[0]
      case One(a) => i < |s| && Fits(a, s[i]) && MatchAt(nodes[1..], s, i + 1)
      case Star(a) => MatchAt(nodes[1..], s, i) || (i < |s| && Fits(a, s[i]) && MatchAt(nodes, s, i + 1))
      case Counted(a, least, most) =>
        || (least == 0 && MatchAt(nodes[1..], s, i))
        || (most != Some(0) && i < |s| && Fits(a, s[i]) && MatchAt([OneLess(nodes[0])] + nodes[1..], s, i + 1))
      case EndOfLine => AtEndOfLine(s, i) && MatchAt(nodes[1..], s, i)
  }

  // regex_search: some position matches.
  ghost predicate Search(nodes: seq<Node>, s: string) {
    exists i :: 0 <= i <= |s| && MatchAt(nodes, s, i)
  }

  // A whole text matches a wildcard pattern.
  ghost predicate WildMatch(p: string, t: string)
    decreases |p|
  {
    if p == "" then t == ""
    else if p[0] == '*' then exists k :: 0 <= k <= |t| && WildMatch(p[1..], t[k..])
    else t != "" && (p[0] == '?' || t[0] == p[0]) && WildMatch(p[1..], t[1..])
  }

  // A starred dot may skip to any later position, and does nothing else.
  lemma {:induction false} StarReaches(nodes: seq<Node>, s: string, i: nat, m: nat)
    requires i <= m <= |s| && nodes != [] && nodes[0] == Star(AnyChar) && MatchAt(nodes[1..], s, m)
    ensures MatchAt(nodes, s, i)
    decreases m - i
  {
    if i < m {
      StarReaches(nodes, s, i + 1, m);
    }
  }

  lemma {:induction false} StarSkips(nodes: seq<Node>, s: string, i: nat) returns (m: nat)
    requires i <= |s| && nodes != [] && nodes[0] == Star(AnyChar) && MatchAt(nodes, s, i)
    ensures i <= m <= |s| && MatchAt(nodes[1..], s, m)
    decreases |s| - i
  {
    if MatchAt(nodes[1..], s, i) {
      m := i;
    } else {
      m := StarSkips(nodes, s, i + 1);
    }
  }

  // The pattern matches a piece of the text from i up to the end of a line.
  ghost predicate WildFrom(p: string, s: string, i: nat)
    requires i <= |s|
  {
    exists j :: i <= j <= |s| && AtEndOfLine(s, j) && WildMatch(p, s[i..j])
  }

  lemma {:induction false} MatchIsWild(p: string, s: string, i: nat)
    requires i <= |s|
    ensures MatchAt(Nodes(p), s, i) <==> WildFrom(p, s, i)
    decreases |p|
  {
    var nodes := Nodes(p);
    if p == "" {
      assert nodes[1..] == [];
      if WildFrom(p, s, i) {
        var j :| i <= j <= |s| && AtEndOfLine(s, j) && WildMatch(p, s[i..j]);
        assert i == j;
      }
      assert s[i..i] == "";
    } else {
      assert nodes[1..] == Nodes(p[1..]);
      if p[0] == '*' {
        StarIsWild(p, s, i);
      } else if i < |s| {
        MatchIsWild(p[1..], s, i + 1);
        OneIsWild(p, s, i);
      } else {
        assert forall j :: i <= j <= |s| ==> s[i..j] == "";
      }
    }
  }

  lemma OneIsWild(p: string, s: string, i: nat)
    requires i < |s| && p != "" && p[0] != '*'
    ensures WildFrom(p, s, i) <==> (p[0] == '?' || s[i] == p[0]) && WildFrom(p[1..], s, i + 1)
  {
    if WildFrom(p, s, i) {
      var j :| i <= j <= |s| && AtEndOfLine(s, j) && WildMatch(p, s[i..j]);
      assert s[i..j][1..] == s[i + 1..j];
    }
    if (p[0] == '?' || s[i] == p[0]) && WildFrom(p[1..], s, i + 1) {
      var j :| i + 1 <= j <= |s| && AtEndOfLine(s, j) && WildMatch(p[1..], s[i + 1..j]);
      assert s[i..j][1..] == s[i + 1..j];
      assert WildMatch(p, s[i..j]);
    }
  }

  lemma StarIsWild(p: string, s: string, i: nat)
    requires i <= |s| && p != "" && p[0] == '*'
    ensures MatchAt(Nodes(p), s, i) <==> WildFrom(p, s, i)
    decreases |p|, 0
  {
    var nodes := Nodes(p);
    assert nodes[1..] == Nodes(p[1..]);
    if MatchAt(nodes, s, i) {
      var m := StarSkips(nodes, s, i);
      MatchIsWild(p[1..], s, m);
      hide MatchAt;
      StarFromLater(p, s, i, m);
    }
    if WildFrom(p, s, i) {
      var m := LaterFromStar(p, s, i);
      MatchIsWild(p[1..], s, m);
      StarReaches(nodes, s, i, m);
    }
  }

  lemma StarFromLater(p: string, s: string, i: nat, m: nat)
    requires i <= m <= |s| && p != "" && p[0] == '*' && WildFrom(p[1..], s, m)
    ensures WildFrom(p, s, i)
  {
    var j :| m <= j <= |s| && AtEndOfLine(s, j) && WildMatch(p[1..], s[m..j]);
    assert s[i..j][m - i..] == s[m..j];
    assert WildMatch(p, s[i..j]);
  }

  lemma LaterFromStar(p: string, s: string, i: nat) returns (m: nat)
    requires i <= |s| && p != "" && p[0] == '*' && WildFrom(p, s, i)
    ensures i <= m <= |s| && WildFrom(p[1..], s, m)
  {
    var j :| i <= j <= |s| && AtEndOfLine(s, j) && WildMatch(p, s[i..j]);
    var k :| 0 <= k <= |s[i..j]| && WildMatch(p[1..], s[i..j][k..]);
    assert s[i..j][k..] == s[i + k..j];
    m := i + k;
  }

  // Searching for the nodes in any text succeeds exactly when the wildcard matches a piece of
  // the text that ends where a line ends.
  ghost predicate Means(nodes: seq<Node>, p: string) {
    forall s :: Search(nodes, s) <==> Found(p, s)
  }

  ghost predicate Found(p: string, s: string) {
    exists i :: 0 <= i <= |s| && WildFrom(p, s, i)
  }

  // Meaning is preserved: searching a path for the translated pattern succeeds exactly when
  // the wildcard matches a piece of the path that ends where a line ends.
  lemma WildcardMeaning(p: string, lenient: bool)
    requires Inert(p, lenient)
    ensures Parse(Translate(p), lenient).Some? && Means(Parse(Translate(p), lenient).value, p)
  {
    hide MatchAt, WildMatch, Parse, Translate, WildFrom;
    ParseTranslate(p, lenient);
    forall s
      ensures Search(Nodes(p), s) <==> Found(p, s)
    {
      forall i | 0 <= i <= |s|
        ensures MatchAt(Nodes(p), s, i) <==> WildFrom(p, s, i)
      {
        MatchIsWild(p, s, i);
      }
    }
  }

  // On one line: exactly when the wildcard matches a suffix.
  lemma WildcardMatchesSuffix(p: string, lenient: bool, s: string)
    requires Inert(p, lenient) && '\n' !in s
    ensures Parse(Translate(p), lenient).Some?
    ensures Search(Parse(Translate(p), lenient).value, s) <==> exists i :: 0 <= i <= |s| && WildMatch(p, s[i..])
  {
    WildcardMeaning(p, lenient);
    hide WildMatch, Parse, Translate, Search;
    assert Search(Parse(Translate(p), lenient).value, s) <==> Found(p, s);
    forall i | 0 <= i <= |s|
      ensures WildFrom(p, s, i) <==> WildMatch(p, s[i..])
    {
      assert s[i..|s|] == s[i..];
      assert forall j :: i <= j < |s| ==> s[j] in s;
    }
  }

  // ----- Counts -----

  // The nodes end with their only anchor, and the bounds of every count are in order.
  predicate Anchored(nodes: seq<Node>) {
    if nodes == [] then false
    else if nodes[0] == EndOfLine then |nodes| == 1
    else
      && (nodes[0].Counted? && nodes[0].most.Some? ==> nodes[0].least <= nodes[0].most.value)
      && Anchored(nodes[1..])
  }

  function SomeChar(a: Atom): char {
    if a == AnyChar then 'x' else a.c
  }

  // A shortest text that the nodes match.
  function Instance(nodes: seq<Node>): string
    requires Anchored(nodes)
    decreases |nodes|, if nodes[0].Counted? then nodes[0].least else 0
  {
    match nodes[0]
    case EndOfLine => ""
    case One(a) => [SomeChar(a)] + Instance(nodes[1..])
    case Star(_) => Instance(nodes[1..])
    case Counted(a, least, _) =>
      if least == 0 then Instance(nodes[1..])
      else
        var less := [OneLess(nodes[0])] + nodes[1..];
        assert less[1..] == nodes[1..];
        [SomeChar(a)] + Instance(less)
  }

  lemma {:induction false} InstanceMatches(nodes: seq<Node>, pre: string)
    requires Anchored(nodes)
    ensures MatchAt(nodes, pre + Instance(nodes), |pre|)
    decreases |nodes|, if nodes[0].Counted? then nodes[0].least else 0
  {
    var s := pre + Instance(nodes);
    match nodes[0]
    case EndOfLine =>
      assert nodes[1..] == [];
    case Star(_) =>
      InstanceMatches(nodes[1..], pre);
    case One(a) =>
      InstanceMatches(nodes[1..], pre + [SomeChar(a)]);
      assert s == (pre + [SomeChar(a)]) + Instance(nodes[1..]);
    case Counted(a, least, _) =>
      if least == 0 {
        InstanceMatches(nodes[1..], pre);
      } else {
        var less := [OneLess(nodes[0])] + nodes[1..];
        assert less[1..] == nodes[1..];
        InstanceMatches(less, pre + [SomeChar(a)]);
        assert s == (pre + [SomeChar(a)]) + Instance(less);
      }
  }

  lemma StarMatch(p: string, t: string) returns (k: nat)
    requires p != "" && p[0] == '*' && WildMatch(p, t)
    ensures k <= |t| && WildMatch(p[1..], t[k..])
  {
    k :| 0 <= k <= |t| && WildMatch(p[1..], t[k..]);
  }

  lemma OneMatch(p: string, t: string)
    requires p != "" && p[0] != '*' && WildMatch(p, t)
    ensures t != "" && (p[0] == '?' || t[0] == p[0]) && WildMatch(p[1..], t[1..])
  {}

  // Characters that are not wildcards stand in the text as they are.
  lemma {:induction false} LiteralMatch(p: string, t: string, k: nat)
    requires k <= |p| && WildMatch(p, t) && forall i :: 0 <= i < k ==> p[i] != '*' && p[i] != '?'
    ensures k <= |t| && (forall i :: 0 <= i < k ==> t[i] == p[i]) && WildMatch(p[k..], t[k..])
    decreases k
  {
    hide WildMatch;
    if k == 0 {
      assert p[0..] == p && t[0..] == t;
    } else {
      LiteralMatch(p, t, k - 1);
      OneMatch(p[k - 1..], t[k - 1..]);
      assert p[k - 1..][1..] == p[k..] && t[k - 1..][1..] == t[k..];
    }
  }

  lemma PlainStart(q: string)
    requires Translate(q) != "" && CountChar(Translate(q)[0])
    ensures q != "" && Translate(q) == [q[0]] + Translate(q[1..])
  {
    if q != "" {
      TranslateStep(q);
      hide Translate, FlatMap;
      assert Translate(q)[0] == Piece(q[0])[0];
    }
  }

  // Braces, digits and commas are translated as they are, and nothing else looks like them.
  lemma {:induction false} CountInPattern(q: string, k: nat)
    requires k <= |Translate(q)|
    requires forall i :: 0 <= i < k ==> CountChar(Translate(q)[i])
    ensures k <= |q| && Translate(q)[..k] == q[..k] && Translate(q)[k..] == Translate(q[k..])
    decreases k
  {
    hide Translate;
    if k == 0 {
      assert q[0..] == q;
    } else {
      PlainStart(q);
      var (c, rest) := (q[0], Translate(q[1..]));
      forall i | 0 <= i < k - 1
        ensures CountChar(rest[i])
      {
        assert rest[i] == Translate(q)[i + 1];
      }
      CountInPattern(q[1..], k - 1);
      assert ([c] + rest)[k..] == rest[k - 1..];
      assert ([c] + rest)[..k] == [c] + rest[..k - 1];
      assert q[1..][k - 1..] == q[k..] && q[..k] == [c] + q[1..][..k - 1];
    }
  }

  // The instance of a count is a run of one character, followed by the instance of the rest.
  lemma {:induction false} InstanceRun(nodes: seq<Node>)
    requires Anchored(nodes) && nodes[0].Counted?
    ensures var (text, least) := (Instance(nodes), nodes[0].least);
            && least <= |text| && text[least..] == Instance(nodes[1..])
            && forall i :: 0 <= i < least ==> text[i] == SomeChar(nodes[0].atom)
    decreases nodes[0].least
  {
    if nodes[0].least > 0 {
      var less := [OneLess(nodes[0])] + nodes[1..];
      assert less[1..] == nodes[1..];
      InstanceRun(less);
      var (text, rest) := (Instance(nodes), Instance(less));
      assert text == [SomeChar(nodes[0].atom)] + rest;
      assert text[nodes[0].least..] == rest[less[0].least..];
    }
  }

  // A pattern that can be read matches a piece of its own shortest instance only from the
  // start, and only if all its braces are inert.
  ghost predicate OnlyInert(p: string, lenient: bool, nodes: seq<Node>, i: nat, j: nat)
    requires Anchored(nodes)
  {
    i <= j <= |Instance(nodes)| && WildMatch(p, Instance(nodes)[i..j]) ==> Inert(p, lenient) && i == 0
  }

  lemma {:induction false} InstanceOnlyInert(p: string, lenient: bool, i: nat, j: nat)
    requires Parse(Translate(p), lenient).Some?
    ensures var nodes := Parse(Translate(p), lenient).value; Anchored(nodes) && OnlyInert(p, lenient, nodes, i, j)
    decreases |p|
  {
    hide WildMatch, MatchAt;
    if p == "" {
      ParseTranslate(p, lenient);
    } else {
      TranslateStep(p);
      TranslateStart(p[1..]);
      ParsePiece(p[0], Translate(p[1..]), lenient);
      if p[0] != '*' && |p| > 1 && p[1] == '{' {
        AfterCount(p, lenient, i, j);
      } else if p[0] == '*' {
        AfterStar(p, lenient, i, j);
      } else {
        AfterOne(p, lenient, i, j);
      }
    }
  }

  lemma AfterStar(p: string, lenient: bool, i: nat, j: nat)
    requires p != "" && p[0] == '*' && Parse(Translate(p), lenient).Some?
    requires Parse(Translate(p), lenient) == Then(NodeOf(p[0]), Parse(Translate(p[1..]), lenient))
    ensures var nodes := Parse(Translate(p), lenient).value; Anchored(nodes) && OnlyInert(p, lenient, nodes, i, j)
    decreases |p|, 0
  {
    hide Parse, Translate, WildMatch, Inert;
    var (nodes, rest) := (Parse(Translate(p), lenient).value, Parse(Translate(p[1..]), lenient).value);
    assert nodes[1..] == rest;
    InstanceOnlyInert(p[1..], lenient, i, j);
    InertTail(p, lenient);
    var text := Instance(rest);
    assert Instance(nodes) == text;
    if i <= j <= |text| && WildMatch(p, text[i..j]) {
      var k := StarMatch(p, text[i..j]);
      assert text[i..j][k..] == text[i + k..j];
      InstanceOnlyInert(p[1..], lenient, i + k, j);
    }
  }

  lemma AfterOne(p: string, lenient: bool, i: nat, j: nat)
    requires p != "" && p[0] != '*' && (|p| == 1 || p[1] != '{') && (lenient || !Brace(p[0]))
    requires Parse(Translate(p), lenient).Some?
    requires Parse(Translate(p), lenient) == Then(NodeOf(p[0]), Parse(Translate(p[1..]), lenient))
    ensures var nodes := Parse(Translate(p), lenient).value; Anchored(nodes) && OnlyInert(p, lenient, nodes, i, j)
    decreases |p|, 0
  {
    hide Parse, Translate, WildMatch, Inert;
    var (nodes, rest) := (Parse(Translate(p), lenient).value, Parse(Translate(p[1..]), lenient).value);
    assert nodes[1..] == rest;
    InstanceOnlyInert(p[1..], lenient, i, if j == 0 then 0 else j - 1);
    InertTail(p, lenient);
    var (c, text) := (SomeChar(AtomOf(p[0])), Instance(rest));
    assert Instance(nodes) == [c] + text;
    if i <= j <= |text| + 1 && WildMatch(p, ([c] + text)[i..j]) {
      OneMatch(p, ([c] + text)[i..j]);
      assert ([c] + text)[i..j][1..] == text[i..j - 1];
    }
  }

  lemma AfterCount(p: string, lenient: bool, i: nat, j: nat)
    requires |p| > 1 && p[0] != '*' && p[1] == '{' && (lenient || !Brace(p[0]))
    requires var rest := Translate(p[1..]);
             && rest != "" && rest[0] == '{' && ReadCount(rest).Some?
             && var q := ReadCount(rest).value;
                && Parse(rest[q.length..], lenient).Some?
                && Parse(Translate(p), lenient) ==
                   Then(Counted(AtomOf(p[0]), q.least, q.most), Parse(rest[q.length..], lenient))
    ensures var nodes := Parse(Translate(p), lenient).value; Anchored(nodes) && OnlyInert(p, lenient, nodes, i, j)
    decreases |p|, 0
  {
    hide Parse, Translate, ReadCount, Piece, WildMatch, Inert;
    var (rest, k) := (Translate(p[1..]), ReadCount(Translate(p[1..])).value.length);
    CountInPattern(p[1..], k);
    var q := p[1..][k..];
    var (nodes, after) := (Parse(Translate(p), lenient).value, Parse(Translate(q), lenient).value);
    assert nodes[1..] == after;
    InstanceOnlyInert(q, lenient, 0, 0);
    InstanceRun(nodes);
    var (text, least) := (Instance(nodes), nodes[0].least);
    if i <= j <= |text| && WildMatch(p, text[i..j]) {
      var t := text[i..j];
      CountMatched(p, t, k, rest);
      assert t[1] == text[i + 1] && t[2] == text[i + 2];
      assert least <= i + 2;
      var (i', j') := (i + 1 + k - least, j - least);
      assert t[1 + k..] == text[least..][i'..j'];
      InstanceOnlyInert(q, lenient, i', j');
    }
  }

  // The brace and the first digit of a count stand in a matched text, one after the other.
  lemma CountMatched(p: string, t: string, k: nat, rest: string)
    requires p != "" && p[0] != '*' && WildMatch(p, t) && 3 <= k <= |p[1..]| && k <= |rest| && rest[..k] == p[1..][..k]
    requires rest[0] == '{' && IsDigit(rest[1]) && forall i :: 0 <= i < k ==> CountChar(rest[i])
    ensures |t| >= 1 + k && t[1] == '{' && IsDigit(t[2]) && WildMatch(p[1..][k..], t[1 + k..])
  {
    hide WildMatch;
    OneMatch(p, t);
    forall i | 0 <= i < k
      ensures p[1..][i] != '*' && p[1..][i] != '?'
    {
      assert p[1..][i] == p[1..][..k][i] == rest[..k][i];
    }
    LiteralMatch(p[1..], t[1..], k);
    assert rest[0] == rest[..k][0] && rest[1] == rest[..k][1];
    assert t[1] == t[1..][0] == p[1..][..k][0] && t[2] == t[1..][1] == p[1..][..k][1];
    assert t[1..][k..] == t[1 + k..];
  }

  // The translation means the wildcard if and only if every brace of the pattern is inert: a
  // count is always taken for an error or for a repetition.
  lemma BracesExactly(p: string, lenient: bool)
    ensures Parse(Translate(p), lenient).Some? && Means(Parse(Translate(p), lenient).value, p) <==> Inert(p, lenient)
  {
    hide Parse, Translate, Inert, Search, WildMatch;
    if Inert(p, lenient) {
      WildcardMeaning(p, lenient);
    } else if Parse(Translate(p), lenient).Some? {
      var nodes := Parse(Translate(p), lenient).value;
      InstanceOnlyInert(p, lenient, 0, 0);
      var s := Instance(nodes);
      InstanceFound(nodes);
      if Found(p, s) {
        var i :| 0 <= i <= |s| && WildFrom(p, s, i);
        var j :| i <= j <= |s| && AtEndOfLine(s, j) && WildMatch(p, s[i..j]);
        InstanceOnlyInert(p, lenient, i, j);
      }
      assert Search(nodes, s) && !Found(p, s);
    }
  }

  lemma InstanceFound(nodes: seq<Node>)
    requires Anchored(nodes)
    ensures Search(nodes, Instance(nodes))
  {
    InstanceMatches(nodes, "");
    assert "" + Instance(nodes) == Instance(nodes);
  }

  // The pattern a{2} finds aa, a text that the wildcard does not match.
  lemma CountedExample(lenient: bool)
    ensures Translate("a{2}") == "a{2}$"
    ensures var nodes := [Counted(Literal('a'), 2, Some(2)), EndOfLine];
            Parse("a{2}$", lenient) == Some(nodes) && Search(nodes, "aa") && !Found("a{2}", "aa")
  {
    hide Parse, Found, Search, MatchAt, Translate;
    ExampleTranslated();
    ExampleRead(lenient);
    var nodes := [Counted(Literal('a'), 2, Some(2)), EndOfLine];
    ExampleFound(nodes);
    ExampleTooShort();
  }

  // The four characters of the pattern do not fit into the two of the text.
  lemma ExampleTooShort()
    ensures !Found("a{2}", "aa")
  {
    hide WildMatch;
    var (p, s) := ("a{2}", "aa");
    forall i, j | 0 <= i <= j <= |s|
      ensures !WildMatch(p, s[i..j])
    {
      if WildMatch(p, s[i..j]) {
        LiteralMatch(p, s[i..j], 4);
      }
    }
  }

  lemma EmptyTranslated()
    ensures Translate("") == "$"
  {}

  lemma ExamplePieces()
    ensures Piece('a') == "a" && Piece('{') == "{" && Piece('2') == "2" && Piece('}') == "}"
  {}

  lemma ExampleTranslated()
    ensures Translate("a{2}") == "a{2}$"
  {
    hide Translate;
    assert "a{2}"[1..] == "{2}" && "{2}"[1..] == "2}" && "2}"[1..] == "}" && "}"[1..] == "";
    ExamplePieces();
    EmptyTranslated();
    hide Piece;
    TranslateStep("a{2}");
    TranslateStep("{2}");
    TranslateStep("2}");
    TranslateStep("}");
    assert Translate("}") == "}$" && Translate("2}") == "2}$" && Translate("{2}") == "{2}$";
  }

  lemma ExampleRead(lenient: bool)
    ensures Parse("a{2}$", lenient) == Some([Counted(Literal('a'), 2, Some(2)), EndOfLine])
  {
    hide Parse, ReadCount;
    var (rest, end) := ("{2}$", [EndOfLine]);
    assert Piece('a') + rest == "a{2}$";
    ExampleCount();
    assert rest[3..] == "$";
    ParseTranslate("", lenient);
    assert Translate("") == "$" && Nodes("") == end;
    ParsePiece('a', rest, lenient);
    assert [Counted(Literal('a'), 2, Some(2))] + end == [Counted(Literal('a'), 2, Some(2)), EndOfLine];
  }

  lemma ExampleCount()
    ensures ReadCount("{2}$") == Some(Bounds(2, Some(2), 3))
  {
    var d := "2}$";
    assert "{2}$"[1..] == d && d[1..] == "}$" && Digits("}$") == 0 && Digits(d) == 1;
    assert d[..1] == "2" && Number("2") == 2 by { assert "2"[..0] == ""; }
  }

  lemma ExampleFound(nodes: seq<Node>)
    requires nodes == [Counted(Literal('a'), 2, Some(2)), EndOfLine]
    ensures Search(nodes, "aa")
  {
    var last := [EndOfLine];
    var (one, none) := ([Counted(Literal('a'), 1, Some(1))] + last, [Counted(Literal('a'), 0, Some(0))] + last);
    assert nodes[1..] == last && one[1..] == last && none[1..] == last && last[1..] == [];
    assert MatchAt(last, "aa", 2);
    assert MatchAt(none, "aa", 2);
    assert MatchAt(one, "aa", 1);
    assert MatchAt(nodes, "aa", 0);
  }
}
