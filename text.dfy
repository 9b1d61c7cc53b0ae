/** The handful of Python string operations the chatbot relies on: `lower()`,
    `strip()`, `split()`, the substring test `p in s` and `s.replace(p, "")`.
    Characters outside ASCII are left as they are by `Lower`, and only the ASCII
    characters Python counts as whitespace are whitespace here. */
module PyText {

  /** Python's `str.isspace()` restricted to ASCII: tab, line feed, vertical tab,
      form feed, carriage return, the four separators 0x1C..0x1F, and space. */
  predicate IsSpace(c: char) {
    c as int == 32 || 9 <= c as int <= 13 || 28 <= c as int <= 31
  }

  predicate NoSpace(s: string) {
    forall k :: 0 <= k < |s| ==> !IsSpace(s[k])
  }

  predicate IsUpper(c: char) {
    'A' <= c <= 'Z'
  }

  function LowerChar(c: char): (r: char)
    ensures !IsUpper(r)
    ensures IsUpper(c) ==> r as int == c as int + 32
    ensures !IsUpper(c) ==> r == c
  {
    if IsUpper(c) then (c as int + 32) as char else c
  }

  /** `s.lower()` */
  function Lower(s: string): (r: string)
    ensures |r| == |s|
  {
    if s == [] then [] else [LowerChar(s[0])] + Lower(s[1..])
  }

  /** `Lower` maps every character on its own and leaves no upper-case letter. */
  lemma {:induction false} LowerSpec(s: string)
    ensures forall k :: 0 <= k < |s| ==> Lower(s)[k] == LowerChar(s[k])
    ensures forall k :: 0 <= k < |s| ==> !IsUpper(Lower(s)[k])
  {
    if s != [] {
      LowerSpec(s[1..]);
    }
  }

  /** Lowering twice is lowering once. */
  lemma LowerIdempotent(s: string)
    ensures Lower(Lower(s)) == Lower(s)
  {
    LowerSpec(s);
    LowerNoUpper(Lower(s));
  }

  /** `s.lstrip()` */
  function StripLeft(s: string): (r: string)
    ensures |r| <= |s|
  {
    if s != [] && IsSpace(s[0]) then StripLeft(s[1..]) else s
  }

  /** `lstrip` drops a run of whitespace from the front, and all of it. */
  lemma {:induction false} StripLeftSpec(s: string)
    ensures var r := StripLeft(s);
      r == s[|s| - |r|..] && (r == [] || !IsSpace(r[0]))
      && forall k :: 0 <= k < |s| - |r| ==> IsSpace(s[k])
  {
    if s != [] && IsSpace(s[0]) {
      StripLeftSpec(s[1..]);
    }
  }

  /** `s.rstrip()` */
  function StripRight(s: string): (r: string)
    ensures |r| <= |s|
  {
    if s != [] && IsSpace(s[|s| - 1]) then StripRight(s[..|s| - 1]) else s
  }

  /** `rstrip` drops a run of whitespace from the back, and all of it. */
  lemma {:induction false} StripRightSpec(s: string)
    ensures var r := StripRight(s);
      r == s[..|r|] && (r == [] || !IsSpace(r[|r| - 1]))
      && forall k :: |r| <= k < |s| ==> IsSpace(s[k])
  {
    if s != [] && IsSpace(s[|s| - 1]) {
      StripRightSpec(s[..|s| - 1]);
    }
  }

  /** `r` is `s[i..]` with only whitespace before and after it in `s`. */
  ghost predicate TrimmedAt(s: string, r: string, i: int) {
    0 <= i <= |s| - |r| && r == s[i..i + |r|]
    && (forall k :: 0 <= k < i ==> IsSpace(s[k]))
    && (forall k :: i + |r| <= k < |s| ==> IsSpace(s[k]))
  }

  /** `s.strip()` */
  function Strip(s: string): (r: string)
    ensures |r| <= |s|
  {
    StripRight(StripLeft(s))
  }

  /** `strip` leaves the infix of `s` that remains once the whitespace at both
      ends is gone. */
  lemma StripSpec(s: string)
    ensures exists i :: TrimmedAt(s, Strip(s), i)
    ensures var r := Strip(s); r == [] || (!IsSpace(r[0]) && !IsSpace(r[|r| - 1]))
  {
    var l := StripLeft(s);
    StripLeftSpec(s);
    StripRightSpec(l);
    assert TrimmedAt(s, Strip(s), |s| - |l|);
  }

  /** Stripping twice is stripping once. */
  lemma StripIdempotent(s: string)
    ensures Strip(Strip(s)) == Strip(s)
  {
    StripSpec(s);
    StripNoSpace(Strip(s));
  }

  /** A string without whitespace at its ends is its own stripped form. */
  lemma StripNoSpace(s: string)
    requires s == [] || (!IsSpace(s[0]) && !IsSpace(s[|s| - 1]))
    ensures Strip(s) == s
  {
    assert StripLeft(s) == s;
    assert StripRight(s) == s;
  }

  /** A string without upper-case letters is its own lowercase form. */
  lemma LowerNoUpper(s: string)
    requires forall k :: 0 <= k < |s| ==> !IsUpper(s[k])
    ensures Lower(s) == s
  {
    LowerSpec(s);
  }

  /** The leading run of non-whitespace characters of `s`. */
  function Word(s: string): (r: string)
    ensures |r| <= |s| && r == s[..|r|] && NoSpace(r)
    ensures |r| == |s| || IsSpace(s[|r|])
  {
    if s == [] || IsSpace(s[0]) then [] else [s[0]] + Word(s[1..])
  }

  /** `s.split()` with no separator: the maximal runs of non-whitespace characters,
      in order. */
  function Split(s: string): (r: seq<string>)
    ensures forall i :: 0 <= i < |r| ==> r[i] != [] && NoSpace(r[i])
    decreases |s|
  {
    if s == [] then []
    else if IsSpace(s[0]) then Split(s[1..])
    else
      var w := Word(s);
      [w] + Split(s[|w|..])
  }

  /** The words joined by single spaces: `" ".join(ws)`. */
  function JoinSpaced(ws: seq<string>): string
  {
    if |ws| == 0 then ""
    else if |ws| == 1 then ws[0]
    else ws[0] + " " + JoinSpaced(ws[1..])
  }

  /** Leading whitespace does not change the words. */
  lemma SplitSkipsSpace(c: char, s: string)
    requires IsSpace(c)
    ensures Split([c] + s) == Split(s)
  {
    assert ([c] + s)[1..] == s;
  }

  lemma {:induction false} WordOf(w: string, rest: string)
    requires w != [] && NoSpace(w)
    requires rest == [] || IsSpace(rest[0])
    ensures Word(w + rest) == w
  {
    assert (w + rest)[1..] == w[1..] + rest;
    if |w| == 1 {
      assert w[1..] + rest == rest;
    } else {
      WordOf(w[1..], rest);
    }
  }

  /** Splitting words that were joined by spaces gives the words back. */
  lemma {:induction false} SplitJoin(ws: seq<string>)
    requires forall i :: 0 <= i < |ws| ==> ws[i] != [] && NoSpace(ws[i])
    ensures Split(JoinSpaced(ws)) == ws
  {
    if |ws| == 0 {
    } else if |ws| == 1 {
      var w := ws[0];
      WordOf(w, []);
      assert w + [] == w;
      assert w[|w|..] == [];
    } else {
      var w, tail := ws[0], JoinSpaced(ws[1..]);
      var s := w + " " + tail;
      assert s == w + (" " + tail);
      WordOf(w, " " + tail);
      assert s[|w|..] == [' '] + tail;
      SplitSkipsSpace(' ', tail);
      SplitJoin(ws[1..]);
      assert ws == [w] + ws[1..];
    }
  }

  /** A word followed by whitespace or the end is the first word of the split, and
      the rest is split on its own. */
  lemma SplitWordThen(w: string, rest: string)
    requires w != [] && NoSpace(w)
    requires rest == [] || IsSpace(rest[0])
    ensures Split(w + rest) == [w] + Split(rest)
  {
    WordOf(w, rest);
    assert (w + rest)[|w|..] == rest;
  }

  /** Any run of whitespace in front, however long and of whatever kind, is no
      word and separates nothing. */
  lemma {:induction false} SplitSpaces(sp: string, s: string)
    requires forall k :: 0 <= k < |sp| ==> IsSpace(sp[k])
    ensures Split(sp + s) == Split(s)
  {
    if sp != [] {
      assert sp + s == [sp[0]] + (sp[1..] + s);
      SplitSkipsSpace(sp[0], sp[1..] + s);
      SplitSpaces(sp[1..], s);
    } else {
      assert sp + s == s;
    }
  }

  /** Any non-empty run of whitespace after a word, whatever its characters and
      length, is one separator. */
  lemma SplitSeparated(w: string, sp: string, rest: string)
    requires w != [] && NoSpace(w)
    requires sp != [] && forall k :: 0 <= k < |sp| ==> IsSpace(sp[k])
    ensures Split(w + sp + rest) == [w] + Split(rest)
  {
    assert w + sp + rest == w + (sp + rest);
    SplitWordThen(w, sp + rest);
    SplitSpaces(sp, rest);
  }

  /** `s` starts with `p`. */
  predicate IsPrefix(p: string, s: string) {
    |p| <= |s| && s[..|p|] == p
  }

  /** `p` occurs in `s` starting at index `i`. */
  ghost predicate OccursAt(s: string, p: string, i: int) {
    0 <= i && i + |p| <= |s| && s[i..i + |p|] == p
  }

  /** Python's `p in s`; the empty string occurs in every string. */
  predicate Contains(s: string, p: string)
    decreases |s|
  {
    IsPrefix(p, s) || (s != [] && Contains(s[1..], p))
  }

  /** `Contains` agrees with the definition of an occurrence by index, both ways. */
  lemma {:induction false} ContainsIff(s: string, p: string)
    ensures Contains(s, p) <==> exists i :: OccursAt(s, p, i)
  {
    if IsPrefix(p, s) {
      assert OccursAt(s, p, 0);
    } else if s == [] {
      assert forall i :: !OccursAt(s, p, i);
    } else {
      ContainsIff(s[1..], p);
      if exists i :: OccursAt(s[1..], p, i) {
        var i :| OccursAt(s[1..], p, i);
        assert s[1..][i..i + |p|] == s[i + 1..i + 1 + |p|];
        assert OccursAt(s, p, i + 1);
      }
      if exists i :: OccursAt(s, p, i) {
        var i :| OccursAt(s, p, i);
        assert i != 0;
        assert s[1..][i - 1..i - 1 + |p|] == s[i..i + |p|];
        assert OccursAt(s[1..], p, i - 1);
      }
    }
  }

  /** An occurrence at a known index makes `Contains` hold. */
  lemma ContainsAt(s: string, p: string, i: int)
    requires OccursAt(s, p, i)
    ensures Contains(s, p)
  {
    ContainsIff(s, p);
  }

  /** `p` occurs in `a + p + b`, whatever `a` and `b` are. */
  lemma ContainsInfix(a: string, p: string, b: string)
    ensures Contains(a + p + b, p)
  {
    assert (a + p + b)[|a|..|a| + |p|] == p;
    ContainsAt(a + p + b, p, |a|);
  }

  /** `s.replace(p, "")`: one left-to-right scan that drops every non-overlapping
      occurrence of `p`; an empty `p` leaves `s` unchanged. */
  function RemoveAll(s: string, p: string): (r: string)
    ensures |r| <= |s|
    decreases |s|
  {
    if p == [] then s
    else if IsPrefix(p, s) then RemoveAll(s[|p|..], p)
    else if s == [] then []
    else [s[0]] + RemoveAll(s[1..], p)
  }

  /** Without an occurrence of `p` there is nothing to remove. */
  lemma {:induction false} RemoveAbsent(s: string, p: string)
    requires !Contains(s, p)
    ensures RemoveAll(s, p) == s
  {
    if s != [] {
      RemoveAbsent(s[1..], p);
      assert s == [s[0]] + s[1..];
    }
  }

  /** An occurrence at the front is removed and the scan resumes after it. */
  lemma RemoveLeading(p: string, s: string)
    requires p != []
    ensures RemoveAll(p + s, p) == RemoveAll(s, p)
  {
    assert (p + s)[..|p|] == p;
    assert (p + s)[|p|..] == s;
  }

  /** No occurrence of `p` in `a + p` starts inside `a`: the `p` after `a` is the
      first one a left-to-right scan meets. */
  ghost predicate FirstAfter(a: string, p: string) {
    forall i :: 0 <= i < |a| ==> !OccursAt(a + p, p, i)
  }

  /** An occurrence after a stretch `a` in which no occurrence starts is removed, and
      the scan goes on with what follows it: with `RemoveAbsent`, this fixes
      `replace(p, "")` on every string, occurrences in the middle included. */
  lemma {:induction false} RemoveAfter(a: string, p: string, b: string)
    requires p != [] && FirstAfter(a, p)
    ensures RemoveAll(a + p + b, p) == a + RemoveAll(b, p)
  {
    if a == [] {
      assert a + p + b == p + b;
      RemoveLeading(p, b);
    } else {
      NoOccurrenceAtHead(a, p, b);
      NoOccurrenceInTail(a, p);
      RemoveAfter(a[1..], p, b);
      RemoveKeepsHead(a + p + b, p);
      DropFirst(a, p);
      DropFirst(a + p, b);
      SplitFirst(a, RemoveAll(b, p));
    }
  }

  /** Dropping the first character of a concatenation drops it from the left part. */
  lemma DropFirst(x: string, y: string)
    requires x != []
    ensures (x + y)[1..] == x[1..] + y
  {
  }

  /** A concatenation is its first character followed by the rest. */
  lemma SplitFirst(x: string, y: string)
    requires x != []
    ensures x + y == [x[0]] + (x[1..] + y)
  {
    assert x == [x[0]] + x[1..];
  }

  /** Where no occurrence starts, the scan keeps the character and moves on. */
  lemma RemoveKeepsHead(s: string, p: string)
    requires p != [] && s != [] && !IsPrefix(p, s)
    ensures RemoveAll(s, p) == [s[0]] + RemoveAll(s[1..], p)
  {
  }

  /** When no occurrence starts inside `a`, none starts at the front of `a + p + b`. */
  lemma NoOccurrenceAtHead(a: string, p: string, b: string)
    requires a != [] && FirstAfter(a, p)
    ensures !IsPrefix(p, a + p + b)
  {
    assert !OccursAt(a + p, p, 0);
    assert (a + p + b)[..|p|] == (a + p)[..|p|];
  }

  /** Dropping the first character of `a` keeps the `p` after it the first one. */
  lemma NoOccurrenceInTail(a: string, p: string)
    requires a != [] && FirstAfter(a, p)
    ensures FirstAfter(a[1..], p)
  {
    forall i | 0 <= i < |a[1..]|
      ensures !OccursAt(a[1..] + p, p, i)
    {
      assert !OccursAt(a + p, p, i + 1);
      assert (a + p)[i + 1..i + 1 + |p|] == (a[1..] + p)[i..i + |p|];
    }
  }

  /** An occurrence at the end is removed too, provided no earlier occurrence
      overlaps it: the scan does not stop at the first occurrence. */
  lemma RemoveTrailing(s: string, p: string)
    requires p != []
    requires forall i :: 0 <= i < |s| ==> !OccursAt(s + p, p, i)
    ensures RemoveAll(s + p, p) == s
  {
    RemoveAfter(s, p, []);
    assert s + p + [] == s + p;
  }
}
