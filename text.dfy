/** The JavaScript string operations the code generator relies on:
    `Array.prototype.join`, `String.prototype.includes`, `split` with a
    non-empty separator, `replace` of the first occurrence and global
    `replace` of a literal pattern, and `${n}` rendering of an index. */
module Text {
  import opened Wrappers

  /** `parts.join(sep)` */
  function Join(parts: seq<string>, sep: string): string
  {
    if |parts| == 0 then ""
    else if |parts| == 1 then parts[0]
    else parts[0] + sep + Join(parts[1..], sep)
  }

  /** Joining one more part at the end. */
  lemma {:induction false} JoinSnoc(parts: seq<string>, p: string, sep: string)
    ensures Join(parts + [p], sep) == if parts == [] then p else Join(parts, sep) + sep + p
  {
    if |parts| > 1 {
      assert (parts + [p])[1..] == parts[1..] + [p];
      JoinSnoc(parts[1..], p, sep);
    } else if |parts| == 1 {
      assert (parts + [p])[1..] == [p];
    }
  }

  /** Joining the concatenation of two non-empty lists puts one separator between the halves. */
  lemma {:induction false} JoinAppend(a: seq<string>, b: seq<string>, sep: string)
    requires a != [] && b != []
    ensures Join(a + b, sep) == Join(a, sep) + sep + Join(b, sep)
  {
    if |a| == 1 {
      assert (a + b)[1..] == b;
    } else {
      assert (a + b)[1..] == a[1..] + b;
      JoinAppend(a[1..], b, sep);
    }
  }

  /** The first index at which `pat` occurs in `s`, if any (`s.indexOf(pat)`). */
  function IndexOf(s: string, pat: string): (r: Option<nat>)
    ensures r.Some? ==> OccursAt(s, pat, r.value)
    ensures r.Some? ==> forall j :: 0 <= j < r.value ==> !OccursAt(s, pat, j)
    ensures r.None? ==> forall j :: !OccursAt(s, pat, j)
  {
    IndexFrom(s, pat, 0)
  }

  /** The first occurrence of `pat` at or after index `k`. */
  function IndexFrom(s: string, pat: string, k: nat): (r: Option<nat>)
    ensures r.Some? ==> k <= r.value && OccursAt(s, pat, r.value)
    ensures r.Some? ==> forall j :: k <= j < r.value ==> !OccursAt(s, pat, j)
    ensures r.None? ==> forall j :: k <= j ==> !OccursAt(s, pat, j)
    decreases |s| - k
  {
    if k + |pat| > |s| then None
    else if s[k..k + |pat|] == pat then Some(k)
    else IndexFrom(s, pat, k + 1)
  }

  /** `pat` starts at index `j` of `s`. */
  predicate OccursAt(s: string, pat: string, j: int)
  {
    0 <= j && j + |pat| <= |s| && s[j..j + |pat|] == pat
  }

  /** `s.includes(pat)` */
  predicate Contains(s: string, pat: string)
  {
    IndexOf(s, pat).Some?
  }

  /** `Contains` agrees with the existence of an occurrence. */
  lemma ContainsIff(s: string, pat: string)
    ensures Contains(s, pat) <==> exists j :: OccursAt(s, pat, j)
  {
    if Contains(s, pat) {
      assert OccursAt(s, pat, IndexOf(s, pat).value);
    }
  }

  /** `s.split(sep)` for a non-empty separator. */
  function Split(s: string, sep: string): (r: seq<string>)
    requires sep != []
    ensures |r| >= 1
    decreases |s|
  {
    match IndexOf(s, sep)
    case None => [s]
    case Some(i) => [s[..i]] + Split(s[i + |sep|..], sep)
  }

  /** Splitting and joining with the same separator gives the string back. */
  lemma {:induction false} JoinSplit(s: string, sep: string)
    requires sep != []
    ensures Join(Split(s, sep), sep) == s
    decreases |s|
  {
    match IndexOf(s, sep)
    case None =>
    case Some(i) =>
      var rest := s[i + |sep|..];
      var tail := Split(rest, sep);
      assert Split(s, sep) == [s[..i]] + tail;
      assert Join(tail, sep) == rest by {
        JoinSplit(rest, sep);
      }
      assert Join([s[..i]] + tail, sep) == s[..i] + sep + Join(tail, sep) by {
        JoinAppend([s[..i]], tail, sep);
      }
      assert s == s[..i] + sep + rest by {
        assert OccursAt(s, sep, i);
        SplitAround(s, i, |sep|);
      }
  }


  lemma SplitAround(s: string, i: nat, n: nat)
    requires i + n <= |s|
    ensures s == s[..i] + s[i..i + n] + s[i + n..]
  {
  }

  /** No piece of a split contains the separator. */
  lemma {:induction false} SplitPiecesFree(s: string, sep: string)
    requires sep != []
    ensures forall p :: p in Split(s, sep) ==> !Contains(p, sep)
    decreases |s|
  {
    match IndexOf(s, sep)
    case None =>
    case Some(i) =>
      var rest := s[i + |sep|..];
      SplitPiecesFree(rest, sep);
      PrefixBeforeFirst(s, sep, i);
  }

  /** The text before the first occurrence of `pat` does not contain `pat`. */
  lemma PrefixBeforeFirst(s: string, pat: string, i: nat)
    requires pat != [] && IndexOf(s, pat) == Some(i)
    ensures !Contains(s[..i], pat)
  {
    if Contains(s[..i], pat) {
      var j := IndexOf(s[..i], pat).value;
      assert s[..i][j..j + |pat|] == s[j..j + |pat|];
      assert OccursAt(s, pat, j);
    }
  }

  /** `s.replace(pat, rep)` with a string pattern: only the first occurrence. */
  function ReplaceFirst(s: string, pat: string, rep: string): string
  {
    match IndexOf(s, pat)
    case None => s
    case Some(i) => s[..i] + rep + s[i + |pat|..]
  }

  /** `s.replace(/pat/g, rep)` for a literal pattern and a replacement without `$` patterns:
      every non-overlapping occurrence, left to right. */
  function ReplaceAll(s: string, pat: string, rep: string): string
    requires pat != []
  {
    Join(Split(s, pat), rep)
  }

  /** `${n}`: the decimal rendering of a natural number. */
  function NatToString(n: nat): (r: string)
    ensures |r| >= 1
    ensures IsDigits(r)
    decreases n
  {
    if n < 10 then [Digit(n)] else NatToString(n / 10) + [Digit(n % 10)]
  }

  function Digit(d: nat): (c: char)
    requires d < 10
    ensures '0' <= c <= '9'
  {
    ['0', '1', '2', '3', '4', '5', '6', '7', '8', '9'][d]
  }

  predicate IsDigits(s: string)
  {
    forall i :: 0 <= i < |s| ==> '0' <= s[i] <= '9'
  }

  /** The value of a string of decimal digits. */
  function DigitsValue(s: string): nat
    requires IsDigits(s)
  {
    if s == [] then 0
    else DigitsValue(s[..|s| - 1]) * 10 + ((s[|s| - 1] as int) - ('0' as int))
  }

  /** Rendering an index can be read back: distinct indices render differently. */
  lemma {:induction false} NatToStringValue(n: nat)
    ensures DigitsValue(NatToString(n)) == n
    decreases n
  {
    var r := NatToString(n);
    if n < 10 {
      assert r[..|r| - 1] == [];
    } else {
      NatToStringValue(n / 10);
      assert r[..|r| - 1] == NatToString(n / 10);
    }
  }

  lemma NatToStringInjective(m: nat, n: nat)
    requires NatToString(m) == NatToString(n)
    ensures m == n
  {
    NatToStringValue(m);
    NatToStringValue(n);
  }

  // ---------------------------------------------------------------------------------------------
  // Replacing a placeholder

  /** No character of `r` occurs in `pat`. */
  predicate Disjoint(r: string, pat: string)
  {
    forall a, b :: 0 <= a < |r| && 0 <= b < |pat| ==> r[a] != pat[b]
  }

  lemma SplitAbsent(s: string, pat: string)
    requires pat != [] && !Contains(s, pat)
    ensures Split(s, pat) == [s]
  {
  }

  /** Replacing a pattern that does not occur changes nothing. */
  lemma ReplaceAllAbsent(s: string, pat: string, rep: string)
    requires pat != [] && !Contains(s, pat)
    ensures ReplaceAll(s, pat, rep) == s
  {
  }

  /** Text that does not contain `pat` on either side of a non-empty separator sharing no
      character with `pat` does not contain it either. */
  lemma Avoids(a: string, r: string, b: string, pat: string)
    requires pat != [] && r != [] && Disjoint(r, pat)
    requires !Contains(a, pat) && !Contains(b, pat)
    ensures !Contains(a + r + b, pat)
  {
    forall j ensures !OccursAt(a + r + b, pat, j) {
      NotAt(a, r, b, pat, j);
    }
    ContainsIff(a + r + b, pat);
  }

  lemma NotAt(a: string, r: string, b: string, pat: string, j: int)
    requires pat != [] && r != [] && Disjoint(r, pat)
    requires !Contains(a, pat) && !Contains(b, pat)
    ensures !OccursAt(a + r + b, pat, j)
  {
    var s := a + r + b;
    ContainsIff(a, pat);
    ContainsIff(b, pat);
    if 0 <= j && j + |pat| <= |s| {
      if j + |pat| <= |a| {
        assert !OccursAt(a, pat, j);
        assert s[j..j + |pat|] == a[j..j + |pat|];
      } else if j >= |a| + |r| {
        var k := j - |a| - |r|;
        assert !OccursAt(b, pat, k);
        assert s == (a + r) + b;
        assert s[j..j + |pat|] == b[k..k + |pat|];
      } else {
        var m := if j < |a| then |a| else j;
        assert s[j..j + |pat|][m - j] == r[m - |a|];
        assert r[m - |a|] != pat[m - j];
      }
    }
  }

  /** Joining pieces free of `pat` with a separator sharing no character with it leaves no
      occurrence of `pat`. */
  lemma {:induction false} JoinAvoids(pieces: seq<string>, pat: string, rep: string)
    requires pat != [] && rep != [] && Disjoint(rep, pat)
    requires forall p :: p in pieces ==> !Contains(p, pat)
    ensures !Contains(Join(pieces, rep), pat)
  {
    if |pieces| == 1 {
      assert pieces[0] in pieces;
    } else if |pieces| > 1 {
      JoinAvoids(pieces[1..], pat, rep);
      assert pieces[0] in pieces;
      Avoids(pieces[0], rep, Join(pieces[1..], rep), pat);
    }
  }

  /** Global replacement by text sharing no character with the pattern removes every
      occurrence of it. */
  lemma ReplaceAllRemoves(s: string, pat: string, rep: string)
    requires pat != [] && rep != [] && Disjoint(rep, pat)
    ensures !Contains(ReplaceAll(s, pat, rep), pat)
  {
    SplitPiecesFree(s, pat);
    JoinAvoids(Split(s, pat), pat, rep);
  }

  /** An occurrence with none before it is the one `indexOf` finds. */
  lemma {:induction false} IndexOfFirst(s: string, pat: string, k: nat)
    requires OccursAt(s, pat, k)
    requires forall j :: 0 <= j < k ==> !OccursAt(s, pat, j)
    ensures IndexOf(s, pat) == Some(k)
  {
  }

  /** One step of a global replacement: the text before the first occurrence, the
      replacement, then the rest replaced. */
  lemma {:induction false} ReplaceAllUnfold(s: string, pat: string, rep: string)
    requires pat != []
    ensures IndexOf(s, pat).None? ==> ReplaceAll(s, pat, rep) == s
    ensures IndexOf(s, pat).Some? ==>
      var i := IndexOf(s, pat).value;
      ReplaceAll(s, pat, rep) == s[..i] + rep + ReplaceAll(s[i + |pat|..], pat, rep)
  {
    if IndexOf(s, pat).Some? {
      var i := IndexOf(s, pat).value;
      var tail := Split(s[i + |pat|..], pat);
      assert Split(s, pat) == [s[..i]] + tail;
      JoinAppend([s[..i]], tail, rep);
    }
  }

  /** Replacing from a known first occurrence `i`. */
  lemma {:induction false} ReplaceAllAt(s: string, pat: string, rep: string, i: nat, head: string, rest: string)
    requires pat != [] && IndexOf(s, pat) == Some(i)
    requires head == s[..i] && rest == s[i + |pat|..]
    ensures ReplaceAll(s, pat, rep) == head + rep + ReplaceAll(rest, pat, rep)
  {
    ReplaceAllUnfold(s, pat, rep);
  }

  /** An occurrence of `pat` in `a + r + b` cannot start before `b` when `a` holds none and
      `r` shares no character with `pat`. */
  lemma {:induction false} NotInFront(a: string, r: string, b: string, pat: string, j: int)
    requires pat != [] && r != [] && Disjoint(r, pat)
    requires !Contains(a, pat) && j < |a| + |r|
    ensures !OccursAt(a + r + b, pat, j)
  {
    var s := a + r + b;
    ContainsIff(a, pat);
    if 0 <= j && j + |pat| <= |s| {
      if j + |pat| <= |a| {
        assert !OccursAt(a, pat, j);
        assert s[j..j + |pat|] == a[j..j + |pat|];
      } else {
        var m := if j < |a| then |a| else j;
        assert s[j..j + |pat|][m - j] == r[m - |a|];
        assert r[m - |a|] != pat[m - j];
      }
    }
  }

  /** The first occurrence in `a` is the first occurrence in `a + c`. */
  lemma {:induction false} IndexOfPrefix(a: string, c: string, pat: string)
    requires IndexOf(a, pat).Some?
    ensures IndexOf(a + c, pat) == IndexOf(a, pat)
  {
    var k := IndexOf(a, pat).value;
    assert (a + c)[k..k + |pat|] == a[k..k + |pat|];
    forall j | 0 <= j < k
      ensures !OccursAt(a + c, pat, j)
    {
      assert !OccursAt(a, pat, j);
      assert (a + c)[j..j + |pat|] == a[j..j + |pat|];
    }
    IndexOfFirst(a + c, pat, k);
  }

  /** Past a prefix in which no occurrence starts, the first occurrence is that of the rest,
      shifted by the prefix's length. */
  lemma {:induction false} IndexOfShifted(p: string, b: string, pat: string)
    requires forall j :: 0 <= j < |p| ==> !OccursAt(p + b, pat, j)
    ensures IndexOf(b, pat).None? ==> IndexOf(p + b, pat).None?
    ensures IndexOf(b, pat).Some? ==> IndexOf(p + b, pat) == Some(|p| + IndexOf(b, pat).value)
  {
    var s := p + b;
    forall j | |p| <= j
      ensures OccursAt(s, pat, j) <==> OccursAt(b, pat, j - |p|)
    {
      if j + |pat| <= |s| {
        assert s[j..j + |pat|] == b[j - |p|..j - |p| + |pat|];
      }
    }
    if IndexOf(b, pat).Some? {
      IndexOfFirst(s, pat, |p| + IndexOf(b, pat).value);
    }
  }

  /** A global replacement does not look across a separator that shares no character with
      the pattern: each side is replaced on its own. */
  lemma {:induction false} ReplaceAllAround(a: string, r: string, b: string, pat: string, rep: string)
    requires pat != [] && r != [] && Disjoint(r, pat)
    ensures ReplaceAll(a + r + b, pat, rep) == ReplaceAll(a, pat, rep) + r + ReplaceAll(b, pat, rep)
    decreases |a|
  {
    if IndexOf(a, pat).Some? {
      var k := IndexOf(a, pat).value;
      var rest := a[k + |pat|..];
      AroundStep(a, r, b, pat, rep);
      ReplaceAllAround(rest, r, b, pat, rep);
      Regroup3(a[..k] + rep, ReplaceAll(rest, pat, rep), r, ReplaceAll(b, pat, rep));
    } else {
      AroundLast(a, r, b, pat, rep);
    }
  }

  /** The first occurrence lies in `a`: replacing it leaves the rest of `a` before `r + b`. */
  lemma {:induction false} AroundStep(a: string, r: string, b: string, pat: string, rep: string)
    requires pat != [] && IndexOf(a, pat).Some?
    ensures var k := IndexOf(a, pat).value;
      ReplaceAll(a + r + b, pat, rep) == a[..k] + rep + ReplaceAll(a[k + |pat|..] + r + b, pat, rep)
      && ReplaceAll(a, pat, rep) == a[..k] + rep + ReplaceAll(a[k + |pat|..], pat, rep)
  {
    var k := IndexOf(a, pat).value;
    IndexOfPrefix(a, r + b, pat);
    assert a + (r + b) == a + r + b;
    SliceBefore(a, r, b, k, |pat|);
    ReplaceAllAt(a + r + b, pat, rep, k, a[..k], a[k + |pat|..] + r + b);
    ReplaceAllAt(a, pat, rep, k, a[..k], a[k + |pat|..]);
  }

  lemma SliceBefore(a: string, r: string, b: string, k: nat, n: nat)
    requires k + n <= |a|
    ensures (a + r + b)[..k] == a[..k]
    ensures (a + r + b)[k + n..] == a[k + n..] + r + b
  {
  }

  /** With no occurrence in `a`, the first occurrence in `a + r + b` is the first in `b`. */
  lemma {:induction false} IndexPastFront(a: string, r: string, b: string, pat: string)
    requires pat != [] && r != [] && Disjoint(r, pat) && IndexOf(a, pat).None?
    ensures IndexOf(b, pat).None? ==> IndexOf(a + r + b, pat).None?
    ensures IndexOf(b, pat).Some? ==> IndexOf(a + r + b, pat) == Some(|a| + |r| + IndexOf(b, pat).value)
  {
    forall j | 0 <= j < |a + r|
      ensures !OccursAt((a + r) + b, pat, j)
    {
      NotInFront(a, r, b, pat, j);
    }
    IndexOfShifted(a + r, b, pat);
  }

  /** No occurrence in `a`: the replacement starts in `b`. */
  lemma {:induction false} AroundLast(a: string, r: string, b: string, pat: string, rep: string)
    requires pat != [] && r != [] && Disjoint(r, pat) && IndexOf(a, pat).None?
    ensures ReplaceAll(a + r + b, pat, rep) == a + r + ReplaceAll(b, pat, rep)
    ensures ReplaceAll(a, pat, rep) == a
  {
    ReplaceAllUnfold(a, pat, rep);
    IndexPastFront(a, r, b, pat);
    if IndexOf(b, pat).Some? {
      assert a + r + b == (a + r) + b;
      AroundFound(a + r, b, pat, rep);
    } else {
      ReplaceAllUnfold(a + r + b, pat, rep);
      ReplaceAllUnfold(b, pat, rep);
    }
  }

  lemma SliceAfter(p: string, b: string, m: nat, n: nat)
    requires m + n <= |b|
    ensures (p + b)[..|p| + m] == p + b[..m]
    ensures (p + b)[|p| + m + n..] == b[m + n..]
  {
  }

  /** The first occurrence lies in `b`, past a prefix `p`. */
  lemma {:induction false} AroundFound(p: string, b: string, pat: string, rep: string)
    requires pat != [] && IndexOf(b, pat).Some?
    requires IndexOf(p + b, pat) == Some(|p| + IndexOf(b, pat).value)
    ensures ReplaceAll(p + b, pat, rep) == p + ReplaceAll(b, pat, rep)
  {
    var s := p + b;
    var m := IndexOf(b, pat).value;
    var tail := ReplaceAll(b[m + |pat|..], pat, rep);
    SliceAfter(p, b, m, |pat|);
    ReplaceAllAt(s, pat, rep, |p| + m, p + b[..m], b[m + |pat|..]);
    ReplaceAllAt(b, pat, rep, m, b[..m], b[m + |pat|..]);
    Regroup3(p, b[..m], rep, tail);
  }

  lemma Regroup3(x: string, y: string, z: string, w: string)
    ensures (x + y) + z + w == x + (y + z + w)
  {
  }

  /** Global replacement of a pattern distributes over the pieces of a join whose separator
      shares no character with it. */
  lemma {:induction false} ReplaceAllJoin(pieces: seq<string>, r: string, pat: string, rep: string)
    requires pat != [] && r != [] && Disjoint(r, pat)
    ensures ReplaceAll(Join(pieces, r), pat, rep)
      == Join(seq(|pieces|, k requires 0 <= k < |pieces| => ReplaceAll(pieces[k], pat, rep)), r)
    decreases |pieces|
  {
    var mapped := seq(|pieces|, k requires 0 <= k < |pieces| => ReplaceAll(pieces[k], pat, rep));
    if |pieces| == 0 {
      ReplaceAllUnfold("", pat, rep);
    } else if |pieces| > 1 {
      var rest := seq(|pieces| - 1, k requires 0 <= k < |pieces| - 1 => ReplaceAll(pieces[1..][k], pat, rep));
      ReplaceAllJoin(pieces[1..], r, pat, rep);
      ReplaceAllAround(pieces[0], r, Join(pieces[1..], r), pat, rep);
      assert mapped[1..] == rest;
    }
  }

  /** A leading pattern is the one `replace` rewrites, whatever follows it. */
  lemma ReplaceFirstLeading(pat: string, t: string, rep: string)
    requires pat != []
    ensures ReplaceFirst(pat + t, pat, rep) == rep + t
  {
    assert OccursAt(pat + t, pat, 0);
  }

  /** A leading pattern with no further occurrence is replaced once, globally. */
  lemma ReplaceAllLeading(pat: string, t: string, rep: string)
    requires pat != [] && !Contains(t, pat)
    ensures ReplaceAll(pat + t, pat, rep) == rep + t
  {
    var s := pat + t;
    assert OccursAt(s, pat, 0);
    assert s[|pat|..] == t;
    assert Split(s, pat) == [""] + Split(t, pat);
    JoinAppend([""], [t], rep);
  }
}
